# Verified model of the task manager's core

This project models, in Dafny, the parts of the task manager whose correctness depends on more
than one function: the versioned task board, the browser's merge and replica, the video room, and
the small protocols around them. `dafny verify dfyconfig.toml` checks everything.

| module | what it models |
|---|---|
| Text, Sorting | trimming as Go, JavaScript and Python do it; stable sorting, lists without repetition, first occurrences |
| TaskModel, TaskStore, StoreRuns | tasks and columns, the in-memory store with its versions, and what holds over runs of store operations |
| Tags, TaskService | tag normal form; the service's create, update, reorder and column calls |
| Positions, ColumnRace | runs of whole service calls: the order users see is fixed by positions; column reorders write by write |
| ETag, BoardMerge, MergeMeaning | entity tags; the client's merge, and when it is the three-way merge |
| PatchProtocol, StoredMerge | the request, 412, merge, retry protocol against a concurrent server, and what it leaves in the store |
| Replica, ReplicaFields | the board a viewer keeps up to date from events |
| SfuRoom, SfuSessions, SfuRace, SfuLeaves | the video room with whole steps, with its sessions told apart, and at the granularity of its lock, first without and then with leaves and reconnects |
| Sse, Csv | the assistant's event stream read from chunks; the CSV export against RFC 4180 |
| Outbox | the outbox worker with its retries |
| BoardHub, BoardCluster | fan-out to browsers within one process and between processes |
| FileTree, SafePaths, Storage, StorageRuns, StorageEffects | the file service: confinement, the team quota, and what each request does |

Methods of classes mirror the code that changes state; each is proved against a function of the
old state, and the lemmas are about those functions and about runs of them. Where the code fails a
property, the model keeps the code and states when it holds:

- an update without If-Match, or with a header that is not read as a version, overwrites whatever
  was written since it read; only a version the task has or had protects the others' writes
  (`UnconditionalUpdateOverwrites`, `HeaderGuards`);
- any update of a done task that was reopened completes it again, in the editor's name
  (`CompletionKept`, `TitleEditCompletesReopened`);
- `mergedBody` puts an untouched patch field back to the base value when the server moved it
  (`SentMatchesMerged`, `MergedSaveUndoes`), so that a title edit of an unassigned task removes the
  assignees a colleague has added (`TitleEditUnassigns`);
- an event cannot clear a field that JSON omits when empty (`ReplicaStaysExact`);
- two creations that read the same maximum share a position (`SplitCreatesCollide`), and so can two
  columns after two reorders at once or a deletion during one (`ConcurrentReordersCollide`,
  `InterruptedDistinct`);
- an old video session's cleanup unregisters its replacement (`SessionSurvives`), a repeated join
  subscribes a peer to its own tracks, two publishes of one kind can pass the check together
  (`KindsSafeIffChecksAlone`), and a track dropped before it is handed over stays behind, dead
  (`CompleteUnlessTooEarly`);
- the outbox delay overflows from the 64th attempt on, and a row whose mark was refused is stranded
  (`OutboxConserved`);
- the presence list drops a user who closes one of two tabs, two processes with one HOSTNAME do not
  hear each other, and two teams can share a board's room when one id extends the other by a colon;
- the team quota is looked up under the team id as it was sent, so it counts nothing for an id with
  blanks around it (`QuotaHoldsExactlyUnpadded`).

Runtime libraries, clocks, randomness and the network appear as parameters: the current time, new
ids, lower-casing, the collation order, the user directory, JSON printing and parsing, which
deliveries the broker accepts and which marks the store refuses. New ids are assumed fresh.

## Model

| member | source | states |
|---|---|---|
| Text.TrimCuts | services/task-service/internal/service/task_service.go:764-765 | trimming takes every blank off both ends and nothing else, for each runtime's own set of blanks |
| TaskStore.InMemoryTaskRepository.Create | services/task-service/internal/repository/in_memory_repository.go:64-72 | a created task enters the map under its id, with version at least 1 |
| TaskStore.InMemoryTaskRepository.GetByID | services/task-service/internal/repository/in_memory_repository.go:74-82 | the stored record, or NotFound |
| TaskStore.InMemoryTaskRepository.Update | services/task-service/internal/repository/in_memory_repository.go:149-159 | an unconditional write takes the stored version plus one, whatever version it was given |
| TaskStore.InMemoryTaskRepository.UpdateIfVersion | services/task-service/internal/repository/in_memory_repository.go:161-174 | the write happens exactly when the stored version is the expected one; otherwise VersionConflict and nothing changes |
| TaskStore.InMemoryTaskRepository.Delete | services/task-service/internal/repository/in_memory_repository.go:519-527 | the record goes, or NotFound and nothing changes |
| TaskStore.InMemoryTaskRepository.MaxSortPosition | services/task-service/internal/repository/in_memory_repository.go:293-310 | the largest position among the column's tasks, -1 when it has none |
| TaskStore.InMemoryTaskRepository.GetMaxColumnPosition | services/task-service/internal/repository/in_memory_repository.go:215-226 | the largest column position of the project, -1 when it has none |
| TaskStore.InMemoryTaskRepository.ReorderTasksInColumn | services/task-service/internal/repository/in_memory_repository.go:312-377 | succeeds if and only if the trimmed ids are a permutation of the column's tasks (duplicate, length and membership checks together); failure changes nothing; success gives the renumbered map and the moved records in request order |
| TaskStore.InMemoryTaskRepository.CreateColumn | services/task-service/internal/repository/in_memory_repository.go:176-184 | the column enters the map under its id, with version at least 1 |
| TaskStore.InMemoryTaskRepository.ListColumnsByProject | services/task-service/internal/repository/in_memory_repository.go:196-213 | exactly the project's columns, each once, sorted by position and then creation time |
| TaskStore.InMemoryTaskRepository.UpdateColumn | services/task-service/internal/repository/in_memory_repository.go:228-238 | unconditional write of a column, version plus one |
| TaskStore.InMemoryTaskRepository.UpdateColumnIfVersion | services/task-service/internal/repository/in_memory_repository.go:240-253 | write of a column exactly when the version matches |
| TaskStore.InMemoryTaskRepository.UpdateColumnPosition | services/task-service/internal/repository/in_memory_repository.go:255-267 | a column's position changes and its version grows by one |
| TaskStore.InMemoryTaskRepository.DeleteColumn | services/task-service/internal/repository/in_memory_repository.go:269-277 | the column goes, or NotFound |
| TaskStore.InMemoryTaskRepository.CountByProjectAndStatus | services/task-service/internal/repository/in_memory_repository.go:279-291 | the number of tasks in the column |
| TaskStore.ReorderAssignsIndices | services/task-service/internal/repository/in_memory_repository.go:358-376 | after an accepted reorder the i-th task has position i and one version more and is otherwise as before, and so is every other task altogether |
| TaskStore.ColumnListingUnique | services/task-service/internal/repository/in_memory_repository.go:196-213 | two listings of a project agree when no two of its columns share both position and creation time |
| TaskStore.LargestPositions | services/task-service/internal/repository/in_memory_repository.go:215-310 | the position looked up is the largest in use in the column, or among the project's columns, and -1 when there is none |
| StoreRuns.VersionIdentifiesRecord | services/task-service/internal/repository/in_memory_repository.go:149-174 | over any run of store operations with ids never reused, versions only grow and an equal version means an equal record |
| StoreRuns.PresentThroughout | services/task-service/internal/repository/in_memory_repository.go:519-527 | a record present before and after a run was present all along |
| StoreRuns.SwapOverwritesWhatWasRead | services/task-service/internal/repository/in_memory_repository.go:161-174 | a successful swap overwrites the record that was read exactly when the expected version is the version read |
| StoreRuns.NoLostUpdate | services/task-service/internal/service/task_service.go:234-337 | with a version the store had returned before the read, a successful swap overwrites the record that was read and that the client saw, whatever ran between |
| StoreRuns.OneWinnerPerVersion | services/task-service/internal/repository/in_memory_repository.go:161-174 | of two swaps on one version at most one succeeds, whatever runs between them |
| StoreRuns.StepPresence | services/task-service/internal/repository/in_memory_repository.go:64-72 | which tasks there are after an operation: a creation adds one, a deletion takes one away, nothing else does either |
| StoreRuns.StepContents | services/task-service/internal/repository/in_memory_repository.go:149-174 | what an operation makes of a task that stays: an update or a matching swap writes it as given, one version up, a reorder moves the column's tasks to their places, and all else is untouched |
| StoreRuns.StepCreates | services/task-service/internal/repository/in_memory_repository.go:64-72 | a created task is stored as given, with a version of at least 1 |
| Tags.NormalizeTaskTags | services/task-service/internal/service/task_service.go:782-801 | the loop computes the first 24 of the trimmed, non-blank, case-insensitively first tags |
| Tags.NormalizeFixesExactlyNormal | services/task-service/internal/service/task_service.go:782-801 | a list is a fixed point of normalisation if and only if it is in normal form; normalisation is idempotent |
| Tags.KeptInOrder | services/task-service/internal/service/task_service.go:782-801 | each tag kept is the trimmed first occurrence of its key, and the order of first occurrences is kept |
| Tags.EditorRoundTrip | services/frontend/src/lib/taskAssignees.js:45-56 | for trimmed separator-free tags, parsing the rendered editor text gives the tags back, and every parse result has that form |
| Tags.NormalTagsSurviveEditor | services/frontend/src/lib/taskAssignees.js:45-56 | stored tags without separators survive the editor unchanged |
| TaskService.Service.ResolveAssignees | services/task-service/internal/service/task_service.go:804-841 | the loop over explicit assignees, with the legacy pair as fallback, computes the resolved list or the first error |
| TaskService.Service.Create | services/task-service/internal/service/task_service.go:90-155 | the new task sits one past the column's maximum, with normalised fields; bad input creates nothing |
| TaskService.Service.Update | services/task-service/internal/service/task_service.go:234-347 | read, edit, write: the whole new board and the result, with stale versions and bad input changing nothing |
| TaskService.Service.Edit | services/task-service/internal/service/task_service.go:241-319 | editing field group by field group equals one simultaneous patch of the record that was read |
| TaskService.Service.Delete | services/task-service/internal/service/task_service.go:349-369 | the task under the trimmed id goes |
| TaskService.Service.ReorderTasksInColumn | services/task-service/internal/service/task_service.go:208-232 | the service call changes the board as the store's reorder does, and reports the same success |
| TaskService.Service.CreateNewColumn | services/task-service/internal/service/task_service.go:464-498 | the new column sits one past the project's maximum |
| TaskService.Service.RemoveColumn | services/task-service/internal/service/task_service.go:516-542 | a column is deleted exactly when no task is left in it |
| TaskService.Service.ReorderProjectColumns | services/task-service/internal/service/task_service.go:589-659 | the whole reordered board; one stale supplied version changes nothing |
| TaskService.Service.OrderColumns | services/task-service/internal/service/task_service.go:613-638 | the two loops with their used set compute requested-first, rest-in-old-order |
| TaskService.ResolvedClean | services/task-service/internal/service/task_service.go:804-841 | resolved assignees are distinct, trimmed, known to the directory, and include every explicit one |
| TaskService.EditedIsPatched | services/task-service/internal/service/task_service.go:241-319 | the sequence of field edits equals the simultaneous patch: no edit disturbs what a later one reads |
| TaskService.UpdateReplacesOne | services/task-service/internal/service/task_service.go:234-347 | an accepted update replaces exactly one record, with the same id and a version one higher; a refused one changes nothing |
| TaskService.PatchTouchesOnlyInput | services/task-service/internal/service/task_service.go:241-319 | fields absent from the input, and id, team, project, version and creation data, stay as read, the completion under the condition that CompletionKept states exactly; the position moves to the end exactly when the status changed |
| TaskService.CompletionRule | services/task-service/internal/service/task_service.go:253-319 | when a task is complete after an update, and that its first completion time is kept |
| TaskService.UpdateKeepsNormalForms | services/task-service/internal/service/task_service.go:277-300 | assignees stay clean, tags stay in normal form, and the legacy fields mirror the first assignee |
| TaskService.FinalOrderPermutes | services/task-service/internal/service/task_service.go:613-638 | the final order holds each of the project's column ids exactly once |
| TaskService.Service.RenameColumn | services/task-service/internal/service/task_service.go:544-587 | column update, conditional exactly when a version was supplied and the check is not skipped |
| TaskService.CompletionKept | services/task-service/internal/service/task_service.go:301-318 | an accepted update without a completed flag keeps completion time and person if and only if the task was complete already or does not end up done |
| TaskService.TitleEditCompletesReopened | services/task-service/internal/service/task_service.go:301-318 | an instance: reopening a done task, as the board does with completed false (services/frontend/src/pages/TasksPage.jsx:1907), leaves its status; the next title edit, by anyone, completes it again in that person's name |
| TaskService.ResolvedMentions | services/task-service/internal/service/task_service.go:804-841 | the stored assignees are the first mentions among those asked for, in order, each under the name given there, or the legacy pair where no list is sent; there is a list if and only if the directory knows everyone, and otherwise the first unknown user decides the error |
| TaskService.CreateStores | services/task-service/internal/service/task_service.go:90-155 | a creation succeeds if and only if title, team and project are given and the directory knows the assignees; it adds one task, each field as asked for: the status trimmed and in lower case, todo for a blank one; low and high priorities kept, any other medium; at the end of its column; nothing else changes |
| TaskService.UpdateStores | services/task-service/internal/service/task_service.go:234-347 | an update succeeds if and only if the task is there, the title not blank, the assignees known and the version agreed; it stores each field sent, the status and priority by the rules of a creation, credits the actor with a completion, and moves the task to the end of its column if the status changed |
| TaskService.UpdateFails | services/task-service/internal/service/task_service.go:234-347 | otherwise nothing changes, and the error says which of these failed first |
| TaskService.StatusStoredAsSent | services/task-service/internal/service/task_service.go:763-769 | a trimmed status in lower case is stored as sent |
| TaskService.CreateColumnStores | services/task-service/internal/service/task_service.go:464-498 | a column is created if and only if team, project and title are given; it holds them trimmed, behind the project's other columns |
| TaskService.UpdateColumnStores | services/task-service/internal/service/task_service.go:544-587 | a column's title changes if and only if it is there, the title not blank and the version agreed; the rest of it stays |
| TaskService.DeletesEmptyColumns | services/task-service/internal/service/task_service.go:516-542 | a column is deleted if and only if it is there and no task has its project and id as project and status |
| TaskService.DeletesTask | services/task-service/internal/service/task_service.go:349-369 | a task is deleted if and only if it is there; every other record stays as it is |
| Positions.ReachableDistinct | services/task-service/internal/service/task_service.go:90-659 | in every board reachable by atomic calls, positions are distinct within each column and each project |
| Positions.UpdateKeepsDistinct | services/task-service/internal/service/task_service.go:254-264 | moving a task to another column, or leaving it, keeps positions distinct |
| Positions.ColumnViewUnique | services/task-service/internal/repository/in_memory_repository.go:100-147 | each column's displayed order is the one sorted arrangement of its tasks |
| Positions.ReorderShowsRequestedOrder | services/task-service/internal/repository/in_memory_repository.go:312-377 | after an accepted reorder every listing shows the column in the requested order |
| Positions.ReorderColumnsShowsFinalOrder | services/task-service/internal/service/task_service.go:589-643 | after a reorder of columns every listing is exactly the final order, each version one higher |
| Positions.FinalOrderStable | services/task-service/internal/service/task_service.go:613-638 | repeating the same request changes the order no further |
| Positions.FullRequestHonoured | services/task-service/internal/service/task_service.go:613-638 | known, distinct requested ids come first in request order; a full request is the new order |
| Positions.SplitCreatesCollide | services/task-service/internal/service/task_service.go:132-151 | two creations that both read the maximum before either wrote leave positions distinct if and only if they go to different columns: atomicity is needed |
| ColumnRace.ConcurrentReordersCollide | services/task-service/internal/service/task_service.go:639-643 | two column reorders that have both passed the version check leave the positions of the project's columns distinct in every interleaving of their writes if and only if they ask for the same order |
| ColumnRace.DeletionCutsReorder | services/task-service/internal/service/task_service.go:639-643 | a reorder during which a column is deleted: before its turn, exactly the places up to it are written; after its turn, all of them |
| ColumnRace.InterruptedDistinct | services/task-service/internal/service/task_service.go:639-643 | cut short by a deletion, it leaves the columns distinct if and only if none behind the deleted one stood at a place already given away |
| ETag.ETagRoundTrip | services/task-service/internal/service/etag.go:9-34 | parsing the printed tag of v gives v exactly for 1 <= v < 2^63, and nothing otherwise |
| ETag.ClientTagUnderstood | services/frontend/src/lib/boardMerge.js:90-93 | the client prints the server's tag for every safe version and the server reads it back |
| ETag.ParseIfMatchMeaning | services/task-service/internal/service/etag.go:17-34 | what headers are read as a version: an optional weak prefix, quotes trimmed, a signed numeral in range |
| ETag.AgreesWithStrongComparison | services/task-service/internal/service/etag.go:17-34 | the header lets exactly those versions pass that strong comparison does, a list by any of its members (sections 8.8.3.2 and 13.1.1 of RFC 9110), if and only if it is a star or a single tag the server prints |
| ETag.OtherCharacterUnread | services/task-service/internal/service/etag.go:26-33 | a header with any character that has no place in a version tag, such as the comma of a list, is not read at all |
| ETag.WeakTagReadAsStrong | services/task-service/internal/service/etag.go:22-24 | a weak tag is read as the strong one |
| ETag.ListMatchesAny | services/task-service/internal/service/etag.go:17-34 | an instance: a list of two of the server's tags matches exactly those two versions by the standard, and the server, which does not read it, lets every update pass |
| BoardMerge.TaskAssigneesList | services/frontend/src/lib/taskAssignees.js:3-23 | the loop keeps each non-blank user once and falls back to the legacy assignee |
| BoardMerge.BuildAssigneesPayload | services/frontend/src/lib/taskAssignees.js:58-71 | the loop builds one labelled entry for each non-blank id |
| BoardMerge.PayloadOfClean | services/frontend/src/lib/boardMerge.js:40-48 | building the payload of a task's own assignees gives the list back, so the signature is its sorted assignee list |
| BoardMerge.MergeTaskPatch | services/frontend/src/lib/boardMerge.js:103-155 | the merge loop: conflicts, mergedBody as the whole patch, the locally built merged task, and canAutoMerge, which holds if and only if no edit was changed on both sides, people and tags compared as multisets |
| BoardMerge.ConflictMeans | services/frontend/src/lib/boardMerge.js:108-147 | a field conflicts exactly when local differs from base, server differs from base and server differs from local; completed exactly when both sides changed it |
| BoardMerge.ConflictsListed | services/frontend/src/lib/boardMerge.js:108-147 | the reported conflicts are exactly the conflicting fields of the patch |
| BoardMerge.MergedSlot | services/frontend/src/lib/boardMerge.js:105-145 | in the merged task each patched property holds the edit if it was changed locally without conflict, otherwise the server's value |
| BoardMerge.TagsSignatureUnordered | services/frontend/src/lib/boardMerge.js:25-38 | tag signatures are equal exactly when the trimmed tags are the same multiset |
| BoardMerge.UntouchedTagsUnchanged | services/frontend/src/lib/boardMerge.js:25-38 | tags sent through the untouched editor are no local change |
| BoardMerge.ShownAssignees | services/frontend/src/lib/taskAssignees.js:3-23 | the assignees shown are the first mentions of the array, each user once under the name given first, or of the legacy pair when the array names nobody |
| BoardMerge.PayloadKeepsFirsts | services/frontend/src/lib/taskAssignees.js:58-71 | the payload holds each picked id once, in order of first mention, under its trimmed label |
| BoardMerge.PeopleSignatureUnordered | services/frontend/src/lib/boardMerge.js:40-64 | assignee signatures of lists of any length are equal if and only if the lists hold the same people under the same names |
| BoardMerge.ConflictIsBothChanged | services/frontend/src/lib/boardMerge.js:108-147 | a field conflicts if and only if both sides changed it and not to the same: texts as they are, tags and people as multisets; completed when both sides changed it at all |
| BoardMerge.BlanksDoNotCount | services/frontend/src/lib/boardMerge.js:50-64 | blanks around ids and names, and entries without an id, do not count in a patch's list either |
| MergeMeaning.MergedIsThreeWay | services/frontend/src/lib/boardMerge.js:103-155 | without conflicts the merged task shows the three-way merge of a patched field if and only if: always for text and tag arrays; for tags sent as text when unchanged or empty; for assignees when the array that ends up in the task names somebody, or the legacy fields say what the merge should |
| MergeMeaning.UsualThreeWay | services/frontend/src/lib/boardMerge.js:103-155 | so it does for a chosen non-empty list whatever the server holds, and for an untouched list when the server has an array or the patch leaves the legacy fields alone |
| MergeMeaning.BodyMatchesMerged | services/frontend/src/lib/boardMerge.js:148-155 | making every edit of mergedBody on the server's task shows the same as the merge in a field if and only if the edit changed it or the server did not; for assignees with the exact condition on array and legacy fields |
| MergeMeaning.ClearedAssigneesReadLegacy | services/frontend/src/lib/boardMerge.js:40-64 | an emptied assignee array shows as empty exactly when the legacy assignee is blank too |
| MergeMeaning.EmptyListClears | services/frontend/src/pages/TasksPage.jsx:1778-1793 | a patch with an empty list and an empty legacy id keeps the server's assignees exactly when the server has none |
| MergeMeaning.TitleEditUnassigns | services/frontend/src/pages/TasksPage.jsx:1767-1799 | the form of an unassigned task on which only the title, and the due date's text, differ from the base merges without conflict exactly when these two do not conflict, and keeps the server's assignees; sending it leaves the task unassigned |
| MergeMeaning.SentMatchesMerged | services/frontend/src/lib/boardMerge.js:148-155 | for a whole patch: the accepted merge and the patch sent in its place read alike in every field if and only if every edit keeps the merge and, where no assignee list is sent or stored, the edits of the legacy assignee do |
| MergeMeaning.FormMatchesMerged | services/frontend/src/pages/TasksPage.jsx:1778-1793 | the same for everything the task form can send, due date included, with the assignee list built from the ids picked |
| PatchProtocol.ConditionalUpdateIsSafe | services/task-service/internal/service/task_service.go:234-337 | a saved conditional update, with other operations before the read, between every two store calls and before the reread, overwrote exactly the record the client had seen; a stale one hands back a strictly newer stored record |
| PatchProtocol.SavedWritesEdit | services/task-service/internal/service/task_service.go:324-347 | a saved request replaces one record by the client's edit of the record that was read, version plus one |
| PatchProtocol.UncontendedUpdateSaves | services/task-service/internal/service/task_service.go:324-337 | an acceptable conditional update is saved exactly when nobody wrote the record in between |
| PatchProtocol.DescriptionLost | services/task-service/internal/service/task_service.go:324-328 | a concrete lost update: a description written between read and write of an unconditional title edit is gone |
| PatchProtocol.BoardClient.PatchTask | services/frontend/src/lib/tasksBoardApi.js:14-76 | the client's calls: at most two requests, the retry carries the server's version and the whole patch, and the remembered version follows the last answer |
| PatchProtocol.MergedSaveIsSafe | services/frontend/src/lib/tasksBoardApi.js:42-75 | when merged is reported, the record overwritten is the very task the merge used, and every locally changed field held the base value or already the desired one |
| PatchProtocol.QuietSave | services/frontend/src/lib/tasksBoardApi.js:14-76 | without interference the outcome is decided by the edit, the remembered version and the merge: saved at once, saved after a merge, a conflict with the stored task, or refused |
| PatchProtocol.UnmergedSaveUsesRemembered | services/frontend/src/lib/tasksBoardApi.js:24-41 | an unmerged save overwrote the record of the remembered version, which is the base exactly when the versions agree |
| PatchProtocol.BoardClient.RememberTask | services/frontend/src/lib/taskVersions.js:4-7 | the remembered version of a task is the one it was last seen with |
| PatchProtocol.AtMostOneWrite | services/frontend/src/lib/tasksBoardApi.js:14-76 | at most two requests with the whole patch; the final store is a run of the others' operations and exactly one write of this client, of the task reported, if success is reported, and none otherwise |
| PatchProtocol.RequestWritesOnce | services/task-service/internal/service/task_service.go:234-347 | one request, in any interleaving, ends in a run of the others' operations with one write of this client exactly when it is saved |
| PatchProtocol.UnconditionalUpdateOverwrites | services/task-service/internal/service/task_service.go:324-337 | over all interleavings, an acceptable update never overwrites another record than the one it was made on if and only if it names a version that the task has or had when the request was made; without If-Match, or with the check skipped, it does not |
| PatchProtocol.UnreadHeaderIsNoHeader | services/task-service/internal/handler/http.go:566-568 | an If-Match header that is not read as a version is as good as none |
| PatchProtocol.HeaderGuards | services/task-service/internal/handler/http.go:536-577 | without interference an acceptable edit is saved over the stored record exactly when the header is missing, is not read as a version, or is read as the stored one |
| PatchProtocol.QuietIsUpdateTask | services/task-service/internal/service/task_service.go:234-347 | undisturbed, the interleaved request is the whole service call that runs of calls take as one step |
| PatchProtocol.ConflictsReported | services/frontend/src/lib/tasksBoardApi.js:42-57 | over every interleaving: the client reports a conflict if and only if the first answer is a 412 and some edit was changed on both sides; it reports exactly those edits, in patch order, each with its field and what the server's task shows there |
| PatchProtocol.RequestsNameVersions | services/frontend/src/lib/tasksBoardApi.js:14-60 | which version each request carries, as the server reads it: the remembered one first, the base's when nothing is remembered, none when neither is known, and on the retry that of the task just merged with |
| StoredMerge.MergedSaveReverts | services/frontend/src/lib/tasksBoardApi.js:42-75 | so for an edit in the form the server stores: if and only if the patch carries the field unchanged from its base and the server had moved it |
| StoredMerge.MergedSaveKeepsOthers | services/frontend/src/lib/tasksBoardApi.js:42-75 | every field the patch leaves alone, due date and assignees included, is left as the server had it; the completion if and only if the server's task was complete or the saved one is not done |
| StoredMerge.MergedSaveUndoes | services/frontend/src/lib/tasksBoardApi.js:42-75 | in the record a merged save leaves, another user's change to a field is undone if and only if the server had moved the field and stores the patch's edit of it as the base value: for tag arrays, assignee lists and every text field but the legacy assignee, due dates and values the server normalises included |
| StoredMerge.DueDateNotReverted | services/frontend/src/lib/date.js:14-23 | an untouched due date the form carries along is sent in another text than the server's, so it always counts as a local change; a merged save therefore means that the server had not moved the due date |
| StoredMerge.BodyDecoded | services/task-service/internal/handler/http.go:536-565 | a body is read if and only if its tags are a list and its due date a time; then the update holds every edit of it and nothing else |
| Replica.ReplicaConverges | services/frontend/src/lib/tasksBoardApi.js:195-291 | from an equal start, delivering every event in order keeps the column list equal to the server's listing and the tasks equal on ids and always-serialised fields, over any run |
| Replica.CallFollows | services/frontend/src/lib/tasksBoardApi.js:195-291 | the same for one service call and its event |
| Replica.SortedByPositionIsListing | services/frontend/src/lib/tasksBoardApi.js:270-282 | the client's sort by position alone gives the server's listing, because positions are distinct |
| Replica.BlankSubjectIgnored | services/frontend/src/lib/tasksBoardApi.js:202-262 | an event whose task or column has no id changes nothing on the page |
| ReplicaFields.CallStaysExact | services/frontend/src/lib/tasksBoardApi.js:202-240 | a replica right in every field is right after a call and its event if and only if the call empties no field that JSON drops when empty |
| ReplicaFields.ReplicaStaysExact | services/frontend/src/lib/tasksBoardApi.js:195-291 | over runs: right in every field throughout if and only if no call of the run empties such a field |
| SfuRoom.Peer.AddForwardedTrack | services/sfu-service/cmd/main.go:536-560 | a track is added once; a blank id or a repeated one adds nothing |
| SfuRoom.Peer.RemoveForwardedTracks | services/sfu-service/cmd/main.go:562-582 | the given tracks go, and a change is reported exactly when one of them was there |
| SfuRoom.Room.WithdrawTracks | services/sfu-service/cmd/main.go:383-395 | the filter keeps the other publishers' tracks in order and returns the ids of the rest |
| SfuRoom.Room.AddPeer | services/sfu-service/cmd/main.go:378-485 | the whole room after a join: registration, withdrawal after a reconnect, backfill of every remaining track |
| SfuRoom.Room.PublishTrack | services/sfu-service/cmd/main.go:645-711 | the whole room after a publish: nothing for a repeated kind, otherwise every other peer is forwarded the track |
| SfuRoom.RoomStaysConsistent | services/sfu-service/cmd/main.go:378-711 | in every room reachable by fresh joins, publishes by registered peers and leaves by any session, each registered peer holds exactly the others' tracks, every publisher is registered, and nobody has two tracks of a kind |
| SfuRoom.RejoinSubscribesToSelf | services/sfu-service/cmd/main.go:378-485 | a repeated join of the same session keeps the room consistent exactly when it has published nothing |
| SfuRoom.PublisherMustBeRegistered | services/sfu-service/cmd/main.go:645-688 | publishing keeps the room consistent exactly when the publisher is registered |
| SfuRoom.Room.RemovePeer | services/sfu-service/cmd/main.go:584-609 | the whole room after a leave, which removes whatever is registered under the id; the other sessions all stay if and only if the leaver has not been replaced |
| SfuRoom.LeaveKeepsOthers | services/sfu-service/cmd/main.go:584-586 | taking an id out of the registry keeps every session but the leaver exactly when no other session has replaced it |
| SfuRoom.PublishForwards | services/sfu-service/cmd/main.go:645-711 | an allowed publish puts the track in the room if and only if its publisher had none of that kind; then every other registered peer is forwarded it, and nothing else changes |
| SfuRoom.RoomShowsRun | services/sfu-service/cmd/main.go:378-711 | over runs from an empty room: its tracks are exactly the first publishes of each kind by each publisher since the id last joined or left, registered are those who joined and did not leave, and each holds exactly the others' tracks |
| SfuSessions.DisconnectKeepsOthers | services/sfu-service/cmd/main.go:584-586 | the same over registries that name sessions |
| SfuSessions.SessionSurvives | services/sfu-service/cmd/main.go:378-609 | over every run a registered session survives exactly when nobody connects under its id and no session of that id, old ones included, disconnects; rooms stay consistent |
| SfuSessions.SurvivesWithoutStaleLeaves | services/sfu-service/cmd/main.go:378-609 | in runs without stale leaves it survives exactly until it disconnects or its user connects anew |
| SfuSessions.RoomFollows | services/sfu-service/cmd/main.go:378-609 | a connect registers its session and a disconnect empties the id; the room goes through the same joins, publishes and leaves as in runs without sessions |
| SfuRace.SubscribedOrPendingOnce | services/sfu-service/cmd/main.go:378-485 | with joins, duplicate checks, appends and deferred calls interleaved in any order, each pair of a registered peer and another's track is subscribed or pending exactly once, own tracks never |
| SfuRace.DrainedIsComplete | services/sfu-service/cmd/main.go:456-485 | once no call is pending, every peer holds exactly the others' tracks |
| SfuRace.DeliveryOrderIrrelevant | services/sfu-service/cmd/main.go:689-711 | all orders of the pending calls end in the same room |
| SfuRace.CanDrain | services/sfu-service/cmd/main.go:689-711 | every reachable room can be drained, in as many steps as there are pending calls |
| SfuRace.LeaveCompleteUnlessUnderWay | services/sfu-service/cmd/main.go:584-609 | after a leave the drained room is complete if and only if no call for one of the leaver's tracks was under way |
| SfuRace.StepKindsSafe | services/sfu-service/cmd/main.go:650-688 | one track per kind, counting approved publishes, is kept by every step but a check made while an approval of the same publisher and kind is outstanding, and lost by exactly those |
| SfuRace.KindsSafeIffChecksAlone | services/sfu-service/cmd/main.go:650-688 | over runs it is kept if and only if no two checks of one publisher and kind overlap |
| SfuRace.DuplicatesIffOverlap | services/sfu-service/cmd/main.go:650-688 | a room with no approval outstanding holds one track per kind if and only if no checks overlapped on the way |
| SfuRace.TwoPublishesPassTheCheck | services/sfu-service/cmd/main.go:650-688 | and from any room without the kind two publishes can both pass, because check and append are separate critical sections |
| SfuRace.RoomHoldsRun | services/sfu-service/cmd/main.go:378-485 | over runs: in the room are the tracks appended, and registered those who joined, each under the session it joined with |
| SfuLeaves.TalliedThroughout | services/sfu-service/cmd/main.go:378-711 | with joins, reconnects, leaves, publishes, calls and removals interleaved in any order, a registered peer has got or will get each live track of another exactly once, and each dead track at most once, certainly while it is still to be dropped |
| SfuLeaves.StainedAfter | services/sfu-service/cmd/main.go:562-609 | a step gives a registered session a dead track it will keep if and only if it drops the track for that session before the call handing it over has been made; no step takes it away again |
| SfuLeaves.CompleteUnlessTooEarly | services/sfu-service/cmd/main.go:378-609 | over every run from an empty room to rest, a registered peer holds exactly the live tracks of the others if and only if no track was dropped for its session before it was handed over |
| SfuLeaves.CanSettle | services/sfu-service/cmd/main.go:562-609 | every reachable room can come to rest without such a removal, by making the calls first |
| SfuLeaves.LeaveCanStain | services/sfu-service/cmd/main.go:584-609 | and while a call for a live track is under way, a leave of its publisher and one removal are enough to bring one about |
| SfuLeaves.FloorShowsRun | services/sfu-service/cmd/main.go:378-609 | over runs: in the room are the tracks announced by peers who have neither come back nor left since, and under each id the session that entered last and has not left |
| Sse.SplitIsTheCut | services/frontend/src/ui/AgentChatDrawer.jsx:12-18 | the split is the only way to cut the text into blocks, each ended by the first blank line after its start, and a rest without one |
| Sse.SplitResumes | services/frontend/src/ui/AgentChatDrawer.jsx:206-211 | splitting what was left over together with what arrives equals splitting the whole |
| Sse.ReadStream | services/frontend/src/ui/AgentChatDrawer.jsx:201-261 | for every way of cutting the text into chunks, the page ends as if the whole text had been split once, and the rest is kept back |
| Sse.ShowBlocks | services/frontend/src/ui/AgentChatDrawer.jsx:213-257 | the messages of a stretch of blocks, shown one by one |
| Sse.StreamRoundTrip | services/ml-service/src/api/assistant_routes.py:184-190 | reading what the server framed gives back its payloads in order with an empty rest (WHATWG HTML sections 9.2.5 and 9.2.6) |
| Sse.DataLineOfFrame | services/frontend/src/ui/AgentChatDrawer.jsx:214-219 | a trimmed one-line payload is read back unchanged from its frame |
| Sse.AnswerShown | services/frontend/src/ui/AgentChatDrawer.jsx:226-247 | an answer that ends well shows its tokens put together, or the final text when there were none |
| Sse.ChunksTogether | services/frontend/src/ui/AgentChatDrawer.jsx:201-211 | a text may be cut anywhere: the chunks put together are the text |
| Sse.DataLineByLine | services/frontend/src/ui/AgentChatDrawer.jsx:214-218 | the data of a block is what its data lines hold, trimmed and put together; other lines do not count |
| Sse.BlockTells | services/frontend/src/ui/AgentChatDrawer.jsx:213-224 | a block tells the page what its data parses to, if it has data, and nothing otherwise |
| Sse.PendingAndFailed | services/frontend/src/ui/AgentChatDrawer.jsx:226-257 | the answer is pending until a token, the final text or an error arrives, and failed if and only if an error did |
| Sse.StatusLine | services/frontend/src/ui/AgentChatDrawer.jsx:226-257 | what the line under the answer says after each kind of message |
| Sse.FailureShown | services/frontend/src/ui/AgentChatDrawer.jsx:248-257 | a failed answer keeps the tokens that came, and shows the error or a text of its own when none did |
| Csv.FieldReads | services/frontend/src/lib/taskExport.js:1-7 | an escaped cell, followed by anything that ends a field, reads back as the cell (section 2 of RFC 4180) |
| Csv.RecordsReadBack | services/frontend/src/lib/taskExport.js:38-53 | any table of records of at least two cells reads back |
| Csv.CsvRoundTrip | services/frontend/src/lib/taskExport.js:9-54 | a reader of section 2 of RFC 4180 gets the header and exactly the eleven cells of every task, for arbitrary contents |
| Csv.AssigneesListed | services/frontend/src/lib/taskExport.js:28-37 | the people of a task, separated by semicolons: name and id, or the id alone |
| Csv.TasksReadBack | services/frontend/src/lib/taskExport.js:23-53 | a standard reader finds every task in turn, each field under its own heading |
| Outbox.BackoffDoubles | services/user-service/internal/event/outbox_worker.go:124-133 | the delay is min(2^k, 60) exactly for k <= 62; from 63 on the shift overflows and the store's minimum of a second applies |
| Outbox.TotalDelay | services/user-service/internal/event/outbox_worker.go:124-133 | the total delay before death: 2^(M-1)-1 below 7 attempts, 63+60(M-7) up to 64, and a second for each attempt beyond |
| Outbox.OutboxStore.FetchPendingOutbox | services/user-service/internal/repository/postgres_repository.go:437-484 | the oldest due rows, each once, at most the batch size, become processing |
| Outbox.OutboxStore.MarkOutboxFailed | services/user-service/internal/repository/postgres_repository.go:496-512 | the row waits again, with one attempt more and at least a second's delay |
| Outbox.OutboxWorker.PublishMessage | services/user-service/internal/event/outbox_worker.go:106-122 | only a message that decodes and has a known type reaches the publisher |
| Outbox.OutboxWorker.Handle | services/user-service/internal/event/outbox_worker.go:67-89 | what one message does to its row, by outcome and attempt count |
| Outbox.OutboxWorker.RunOnce | services/user-service/internal/event/outbox_worker.go:60-92 | one flush: the fetched batch handled message by message, the calls made, and the count returned |
| Outbox.OutboxWorker.constructor | services/user-service/internal/event/outbox_worker.go:23-41 | non-positive settings take their defaults |
| Outbox.FlushAt | services/user-service/internal/event/outbox_worker.go:60-92 | a flush handles each fetched row exactly once and leaves the others alone |
| Outbox.RunsKeepAccounts | services/user-service/internal/event/outbox_worker.go:60-92 | over every run, refused marks included, each row's calls equal its attempts, plus one once it has left pending |
| Outbox.DeliveriesBounded | services/user-service/internal/event/outbox_worker.go:60-92 | no message is handed over more than maxAttempts times; a dead deliverable one exactly that often, a published one once more than it failed |
| Outbox.DeadOnlyAfterWaiting | services/user-service/internal/event/outbox_worker.go:68-81 | a row is given up only after its retries' total delay since it was enqueued |
| Outbox.RefusedMarkStrands | services/user-service/internal/event/outbox_worker.go:82-88 | a row whose mark was refused is never taken up again |
| Outbox.OutboxConserved | services/user-service/internal/event/outbox_worker.go:60-92 | no row is lost or invented, published and dead rows never change, and pending, published and dead rows are exactly what was enqueued if and only if no flush has a mark refused for a row of its batch |
| Outbox.FlushTakes | services/user-service/internal/repository/postgres_repository.go:437-484 | a flush takes up rows that are pending and due, and all of them when they fit |
| Outbox.FlushDoes | services/user-service/internal/event/outbox_worker.go:60-92 | each row taken up fares by the rules: published when readable, of the two known kinds, and accepted, dead after its last attempt, otherwise due again after the doubled delay, stuck when its mark is refused; the broker is asked once for readable rows; other rows stay |
| Outbox.EnqueueDoes | services/user-service/internal/repository/postgres_repository.go:1393-1406 | a new row is pending and due at once |
| Outbox.BatchExists | services/user-service/internal/repository/postgres_repository.go:437-484 | whatever is due there is a batch to take up |
| Outbox.SentAreCounted | services/user-service/internal/event/outbox_worker.go:60-92 | the count a flush reports is the number of its messages that are readable and accepted |
| BoardHub.Hub.BroadcastRaw | services/task-service/internal/board/hub.go:195-210 | every client of the room is offered the message once, but for those of the excepted user, and nobody else |
| BoardHub.Hub.PublishLocal | services/task-service/internal/board/hub.go:152-160 | an event is offered once to every client of its room whose user did not act, to all of them when nobody is named, and to nobody else |
| BoardHub.Hub.Register | services/task-service/internal/board/hub.go:58-83 | the new client and its presence, and the presence list offered to the room |
| BoardHub.Hub.Unregister | services/task-service/internal/board/hub.go:85-102 | the client and its user's presence go, empty entries vanish, and the room is told |
| BoardHub.Hub.TouchPresence | services/task-service/internal/board/hub.go:105-118 | the presence entry is renewed and the room is told |
| BoardHub.PresenceOverRuns | services/task-service/internal/board/hub.go:58-102 | over any run of joins, renewals and leaves nobody is listed who is gone; everybody who is there is listed after every step if and only if no connection ends while its user has another |
| BoardHub.LeaverHidesOtherConnections | services/task-service/internal/board/hub.go:93-98 | closing one connection keeps the list right exactly when its user has no other on the board |
| BoardHub.RoomsAreDistinct | services/task-service/internal/board/hub.go:54-56 | two teams never share a room key if and only if neither id extends the other by a colon |
| BoardHub.RoomMembers | services/task-service/internal/board/hub.go:58-102 | what a step makes of a room: the joining client is in it, the leaving one is not, and all others are as before |
| BoardHub.ListedUsers | services/task-service/internal/board/hub.go:58-102 | what a step makes of the presence list: who joins or renews is listed with the name and time, a leaver is not, and all others are as before |
| BoardHub.RoomShowsRun | services/task-service/internal/board/hub.go:58-102 | over runs: in the room of a board are exactly the connections to it that joined and did not leave |
| BoardHub.PresenceFromEmpty | services/task-service/internal/board/hub.go:58-118 | the same from an empty hub, for every run in which renewals come from open connections |
| BoardCluster.DistributedHub.Publish | services/task-service/internal/board/redis_broker.go:95-109 | local fan-out, then one message on every queue |
| BoardCluster.DistributedHub.ReceiveNext | services/task-service/internal/board/redis_broker.go:72-93 | one turn of the loop: own messages are skipped, others fanned out, nothing is published |
| BoardCluster.FannedOutOnce | services/task-service/internal/board/redis_broker.go:72-109 | over every run no event is fanned out twice on a node or offered to the acting user, and once the queues drain it has been fanned out exactly on the nodes it reaches |
| BoardCluster.NoStorm | services/task-service/internal/board/redis_broker.go:72-93 | a run is bounded by its publishes: receiving never causes a send |
| BoardCluster.AllReachedIffDistinct | services/task-service/internal/board/redis_broker.go:33-36 | with all nodes linked, every run that has come to rest has fanned out every event on every node once, if and only if the node ids are distinct |
| BoardCluster.CanDrain | services/task-service/internal/board/redis_broker.go:72-109 | every reachable cluster can come to rest without further publishes |
| BoardCluster.OfferedWhereFannedOut | services/task-service/internal/board/redis_broker.go:72-109 | where a step fans an event out, it is offered to everyone connected there but the acting user, and nobody is offered anything else |
| SafePaths.RootsNotNested | services/file-service/src/services/storage_service.py:32-45 | a path lies under the root of one (team, project) scope at most |
| SafePaths.SafePathAccepts | services/file-service/src/services/storage_service.py:318-325 | a path is accepted if and only if its steps above the root are retraced by name |
| SafePaths.SafePath | services/file-service/src/services/storage_service.py:318-325 | an accepted path resolves under its root |
| SafePaths.PlainResolves | services/file-service/src/services/storage_service.py:318-325 | a path without steps up names exactly the entry below the root that it spells |
| SafePaths.UploadLandsInDirectory | services/file-service/src/services/storage_service.py:94-97 | an accepted upload lands on the directory it was sent to or one name below it |
| SafePaths.ProperIds | services/file-service/src/services/storage_service.py:327-334 | letters, digits and four marks make an id; a mark in front, a blank or a slash does not |
| FileTree.DirectorySize | services/file-service/src/services/storage_service.py:305-316 | the loop adds up the sizes of the files below the root |
| FileTree.BytesAfterMove | services/file-service/src/services/storage_service.py:115-122 | moving a directory keeps the bytes of every subtree that holds both ends or neither |
| Storage.StorageService.EnsureAccessScoped | services/file-service/src/services/storage_service.py:259-275 | the scope's environment, made at its root on first use; members only |
| Storage.StorageService.CreateFolder | services/file-service/src/services/storage_service.py:87-90 | the whole new state after making a folder, by error case |
| Storage.StorageService.AssertTeamQuota | services/file-service/src/services/storage_service.py:291-303 | the loop over environments adds up every charged file once; accepted exactly within 104857600 bytes |
| Storage.StorageService.UploadFile | services/file-service/src/services/storage_service.py:92-101 | the whole new state after an upload, by error case, with the quota looked up under the id as sent |
| Storage.StorageService.DeleteEntry | services/file-service/src/services/storage_service.py:103-113 | the whole new state after deleting a file or a directory |
| Storage.StorageService.RenameEntry | services/file-service/src/services/storage_service.py:115-122 | the whole new state after a rename, by error case |
| Storage.StorageService.DeleteEnvironment | services/file-service/src/services/storage_service.py:78-85 | the environment and everything below its root go, for members only |
| StorageRuns.RequestConfined | services/file-service/src/services/storage_service.py:87-122 | no request changes a file outside the root of its own scope, and every file stays in an environment |
| StorageRuns.OtherScopesUntouched | services/file-service/src/services/storage_service.py:87-122 | the files of every other scope are as before |
| StorageRuns.QuotaCountsTeam | services/file-service/src/services/storage_service.py:291-303 | the check counts the team's bytes if and only if the id came without blanks around it or there is nothing to count |
| StorageRuns.RunsWithinQuota | services/file-service/src/services/storage_service.py:87-122 | over every run whose uploads give unpadded team ids, every team stays within 104857600 bytes |
| StorageRuns.QuotaHoldsExactlyUnpadded | services/file-service/src/services/storage_service.py:92-101 | the quota holds for all uploads under a form of a team's id if and only if that form has no blanks around it |
| StorageEffects.EnterDoes | services/file-service/src/services/storage_service.py:259-275 | access is for members of the environment with both ids trimmed and proper; the first to ask becomes the only member; files stay |
| StorageEffects.FolderDoes | services/file-service/src/services/storage_service.py:87-90 | a folder and its missing parents are made if and only if the actor is let in, the path stays inside and no file is in the way |
| StorageEffects.UploadDoes | services/file-service/src/services/storage_service.py:92-101 | an upload writes one file of the size sent if and only if its folder can be had, the quota leaves room and no directory is there; otherwise no file changes |
| StorageEffects.UploadNames | services/file-service/src/services/storage_service.py:96 | a file sent without a name is called uploaded.bin, and directories in a name do not count |
| StorageEffects.DeleteDoes | services/file-service/src/services/storage_service.py:103-113 | a deletion takes away the file, or the directory with all below it, and only that |
| StorageEffects.RenameDoes | services/file-service/src/services/storage_service.py:115-122 | a rename succeeds if and only if the source is there and POSIX allows the move; then everything at the old path is found at the new one with its size and the rest stays; when it fails, the directories made for it stay |
| StorageEffects.EnvironmentGoes | services/file-service/src/services/storage_service.py:78-85 | a member's deletion of an environment takes every file below its root, and no other |
| StorageEffects.UploadKept | services/file-service/src/services/storage_service.py:87-122 | over runs: a successful upload leaves its file with the size sent, and it is still there at the end unless a later request writes, deletes or renames it |

## Left out

- PatchProtocol.AtMostOneWrite: counts requests and writes of one call; a second attempt after a refreshed access token (a 401 answer) is not part of the model.
- Positions.ReachableDistinct: holds for atomic calls only, as SplitCreatesCollide shows; the service takes several locked steps.
- TaskService.Service.ReorderProjectColumns: is one call without interference here; the service updates the positions one locked step at a time, which ColumnRace models.
- Replica.ReplicaConverges: starts from an equal state, because a snapshot carries at most 20 tasks, and compares only fields that JSON always carries (ReplicaFields.ReplicaStaysExact has the others); the viewer is never the actor, and no event is dropped. It assumes that the project belongs to one team with a trimmed, non-blank id, that new ids are fresh and not blank, and that the project is only used with its team: board events are routed by team and project, and the service itself does not check that they go together.
- MergeMeaning.MergedIsThreeWay: leaves out `completed`, which the code compares through `completedAt`, and takes assignee arrays as the client's buildAssigneesPayload makes them; so does BodyMatchesMerged.
- MergeMeaning.TitleEditUnassigns: takes the due date's text as given; the form's date conversion, with its loss of seconds, is not modelled.
- StoredMerge.MergedSaveUndoes: leaves out `completed`, and the legacy assignee fields, which the server overwrites with the first entry of the list sent beside them.
- StoredMerge.MergedSaveKeepsOthers: says nothing of assignees when the patch sends the legacy id alone; the completion part assumes that times are never printed as the empty text.
- SfuLeaves.CompleteUnlessTooEarly: drops tracks one id at a time, where the code drops a session's ids in one go; these are some of the orders covered. The duplicate check is left to SfuRace.
- StorageRuns.RunsWithinQuota: takes each request of the file service as one atomic step. The code takes no lock: within one process the sizes are summed and the file written without yielding, but the environments to sum are listed before, and several processes are not kept apart at all.
- ETag.ClientTagUnderstood: is stated for safe integers; JavaScript numbers beyond 2^53 are not modelled.
- Sse.ReadStream: takes chunks that are already decoded text; UTF-8 decoding and the browser event raised after a tool has changed tasks are not modelled, nor is the reaction to a transport error or to a data line holding JSON null.
- Outbox.OutboxStore.FetchPendingOutbox: returns the batch oldest first; the SQL leaves the order of returned rows open. Rows locked by another worker are not modelled.
- Storage.StorageService.UploadFile: takes the size of the data instead of the data; symbolic links and failures of the operating system other than a wrong kind of entry are not modelled.
- Versions and positions are unbounded integers: the wrap-around at 2^63 is modelled only where tags are parsed and where the outbox shifts.
- Each service call reads the clock once.
- Searching, paging and listing of tasks, comments, unread counts, the activity log and metrics: they would add one-branch facts.
- The column counterparts of the client's update protocol, which repeat those of tasks.
- Patches are lists of typed edits of the fields the task form sends; other properties of a patch are not modelled.
- The slow-client drop of the board hub and the send buffers: delivery is stated at the fan-out.
- The hub's subscription loop beyond one turn, and a Redis that loses messages or reconnects: the channel is reliable and every linked process subscribes from the start.
- Task attachments in the file service, whose manifests are not checked against the quota; the explicit request for an environment, member lists and the notice of a deleted file.
- HTTP routing, permissions, authentication and CORS; message brokers, databases, WebSocket and WebRTC internals (adding and removing a track is a set update, and does not fail).
- React rendering, calendars, mind maps, machine learning prompts and agent tools.
