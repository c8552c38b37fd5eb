/** The board's CSV export, and a reader written from section 2 of RFC 4180 to check it against. */
module Csv {
  import opened Text

  // --- the export ---

  predicate NeedsQuotes(c: char) {
    c == '"' || c == ',' || c == '\n' || c == '\r'
  }

  predicate AnyNeedsQuotes(s: string) {
    exists i :: 0 <= i < |s| && NeedsQuotes(s[i])
  }

  function DoubleQuotes(s: string): string {
    if s == "" then "" else (if s[0] == '"' then "\"\"" else [s[0]]) + DoubleQuotes(s[1..])
  }

  function EscapeCsvCell(s: string): string {
    if AnyNeedsQuotes(s) then "\"" + DoubleQuotes(s) + "\"" else s
  }

  function Join(separator: string, xs: seq<string>): string {
    if xs == [] then "" else if |xs| == 1 then xs[0] else xs[0] + separator + Join(separator, xs[1..])
  }

  datatype Assignee = Assignee(userId: string, displayName: string)

  /** A board task as the export sees it; an absent field reads as the empty string. */
  datatype Task = Task(
    title: string,
    status: string,
    priority: string,
    dueAt: string,
    tags: seq<string>,
    assignees: seq<Assignee>,
    assigneeUserId: string,
    assigneeName: string,
    completedAt: string,
    description: string,
    id: string
  )

  const HEADERS := [
    "title", "column", "priority", "dueAt", "tags", "assignees",
    "assigneeUserId", "assigneeName", "completed", "description", "id"
  ]

  function ColumnTitle(titles: map<string, string>, status: string): string {
    var status := Trim(JavaScript, status);
    if status in titles && titles[status] != "" then titles[status] else status
  }

  function AssigneeText(a: Assignee): string {
    var id, name := Trim(JavaScript, a.userId), Trim(JavaScript, a.displayName);
    if name != "" then name + " (" + id + ")" else id
  }

  function AssigneeTexts(assignees: seq<Assignee>): (r: seq<string>)
    ensures |r| == |assignees| && forall i :: 0 <= i < |r| ==> r[i] == AssigneeText(assignees[i])
  {
    seq(|assignees|, i requires 0 <= i < |assignees| => AssigneeText(assignees[i]))
  }

  function AssigneesText(assignees: seq<Assignee>): string {
    Join("; ", NonEmpty(AssigneeTexts(assignees)))
  }

  function Cells(titles: map<string, string>, task: Task): (r: seq<string>)
    ensures |r| == |HEADERS|
  {
    [ task.title,
      ColumnTitle(titles, task.status),
      task.priority,
      task.dueAt,
      Join("; ", task.tags),
      AssigneesText(task.assignees),
      task.assigneeUserId,
      task.assigneeName,
      if task.completedAt != "" then "yes" else "no",
      task.description,
      task.id ]
  }

  function EscapeAll(cells: seq<string>): (r: seq<string>)
    ensures |r| == |cells| && forall i :: 0 <= i < |r| ==> r[i] == EscapeCsvCell(cells[i])
  {
    seq(|cells|, i requires 0 <= i < |cells| => EscapeCsvCell(cells[i]))
  }

  function Row(cells: seq<string>): string {
    Join(",", EscapeAll(cells))
  }

  function Table(tasks: seq<Task>, titles: map<string, string>): (r: seq<seq<string>>)
    ensures |r| == |tasks| && forall i :: 0 <= i < |r| ==> r[i] == Cells(titles, tasks[i])
  {
    seq(|tasks|, i requires 0 <= i < |tasks| => Cells(titles, tasks[i]))
  }

  function Rows(records: seq<seq<string>>): (r: seq<string>)
    ensures |r| == |records| && forall i :: 0 <= i < |r| ==> r[i] == Row(records[i])
  {
    seq(|records|, i requires 0 <= i < |records| => Row(records[i]))
  }

  function BuildTasksCsv(tasks: seq<Task>, titles: map<string, string>): string {
    Join("\r\n", [Join(",", HEADERS)] + Rows(Table(tasks, titles)))
  }

  // --- the reader: section 2 of RFC 4180, with any other character as text ---

  /** The rest of a quoted field: up to a quote that is not doubled. */
  function Quoted(s: string): (r: Option<(string, string)>)
    ensures r.Some? ==> |r.value.1| < |s|
  {
    if s == "" then None
    else if s[0] != '"' then
      match Quoted(s[1..])
      case None => None
      case Some((cell, rest)) => Some(([s[0]] + cell, rest))
    else if |s| > 1 && s[1] == '"' then
      match Quoted(s[2..])
      case None => None
      case Some((cell, rest)) => Some((['"'] + cell, rest))
    else Some(("", s[1..]))
  }

  function PlainEnd(s: string, from: nat): (i: nat)
    requires from <= |s|
    ensures from <= i <= |s|
    ensures forall j :: from <= j < i ==> !NeedsQuotes(s[j])
    ensures i < |s| ==> NeedsQuotes(s[i])
    decreases |s| - from
  {
    if from == |s| || NeedsQuotes(s[from]) then from else PlainEnd(s, from + 1)
  }

  /** One field and what follows it. */
  function Field(s: string): (r: Option<(string, string)>)
    ensures r.Some? ==> |r.value.1| <= |s|
  {
    if s != "" && s[0] == '"' then Quoted(s[1..]) else Some((s[..PlainEnd(s, 0)], s[PlainEnd(s, 0)..]))
  }

  /** One record and what follows it. */
  function Record(s: string): (r: Option<(seq<string>, string)>)
    ensures r.Some? ==> |r.value.1| <= |s|
    decreases |s|
  {
    match Field(s)
    case None => None
    case Some((cell, rest)) =>
      if rest == "" || rest[0] != ',' then Some(([cell], rest)) else
        match Record(rest[1..])
        case None => None
        case Some((cells, after)) => Some(([cell] + cells, after))
  }

  /** Records are separated by CRLF; the last may or may not be followed by one. */
  function ParseCsv(s: string): Option<seq<seq<string>>>
    decreases |s|
  {
    match Record(s)
    case None => None
    case Some((record, rest)) =>
      if rest == "" || rest == "\r\n" then Some([record])
      else if !StartsWith(rest, "\r\n") then None
      else
        match ParseCsv(rest[2..])
        case None => None
        case Some(records) => Some([record] + records)
  }

  // --- reading back what was exported ---

  lemma {:induction false} QuotedReads(cell: string, tail: string)
    requires tail == "" || tail[0] != '"'
    ensures Quoted(DoubleQuotes(cell) + ("\"" + tail)) == Some((cell, tail))
  {
    var s := DoubleQuotes(cell) + ("\"" + tail);
    if cell == "" {
      assert s == "\"" + tail;
      assert s[1..] == tail;
    } else {
      var more := DoubleQuotes(cell[1..]) + ("\"" + tail);
      QuotedReads(cell[1..], tail);
      assert cell == [cell[0]] + cell[1..];
      if cell[0] == '"' {
        assert s == "\"\"" + more;
        assert s[2..] == more;
      } else {
        assert s == [cell[0]] + more;
        assert s[1..] == more;
      }
    }
  }

  predicate EndsField(tail: string) {
    tail == "" || tail[0] == ',' || tail[0] == '\r'
  }

  lemma PlainReads(cell: string, tail: string)
    requires !AnyNeedsQuotes(cell) && EndsField(tail)
    ensures Field(cell + tail) == Some((cell, tail))
  {
    var s := cell + tail;
    assert forall j :: 0 <= j < |cell| ==> s[j] == cell[j] && !NeedsQuotes(cell[j]);
    assert tail != "" ==> s[|cell|] == tail[0];
    var end := PlainEnd(s, 0);
    assert end == |cell|;
    assert s[..end] == cell && s[end..] == tail;
  }

  lemma FieldReads(cell: string, tail: string)
    requires EndsField(tail)
    ensures Field(EscapeCsvCell(cell) + tail) == Some((cell, tail))
  {
    if AnyNeedsQuotes(cell) {
      QuotedReads(cell, tail);
      var s := "\"" + DoubleQuotes(cell) + "\"" + tail;
      assert s[0] == '"' && s[1..] == DoubleQuotes(cell) + ("\"" + tail);
    } else {
      PlainReads(cell, tail);
    }
  }

  lemma RowStep(cells: seq<string>)
    requires |cells| >= 2
    ensures Row(cells) == EscapeCsvCell(cells[0]) + "," + Row(cells[1..])
  {
    assert EscapeAll(cells)[1..] == EscapeAll(cells[1..]);
  }

  lemma {:induction false} RecordReads(cells: seq<string>, tail: string)
    requires cells != [] && (tail == "" || tail[0] == '\r')
    ensures Record(Row(cells) + tail) == Some((cells, tail))
  {
    var s := Row(cells) + tail;
    if |cells| == 1 {
      assert cells == [cells[0]];
      FieldReads(cells[0], tail);
      assert s == EscapeCsvCell(cells[0]) + tail;
    } else {
      RowStep(cells);
      var more := "," + (Row(cells[1..]) + tail);
      assert s == EscapeCsvCell(cells[0]) + more;
      FieldReads(cells[0], more);
      assert more[1..] == Row(cells[1..]) + tail && cells == [cells[0]] + cells[1..];
      RecordReads(cells[1..], tail);
    }
  }

  lemma FirstRecordReads(record: seq<string>, more: string)
    requires record != [] && more != ""
    ensures var rest := ParseCsv(more);
            ParseCsv(Row(record) + "\r\n" + more) == if rest == None then None else Some([record] + rest.value)
  {
    var tail := "\r\n" + more;
    RecordReads(record, tail);
    assert Row(record) + "\r\n" + more == Row(record) + tail;
    assert tail[2..] == more && tail[..2] == "\r\n";
  }

  lemma LastRecordReads(record: seq<string>)
    requires record != []
    ensures ParseCsv(Row(record)) == Some([record])
  {
    RecordReads(record, "");
    assert Row(record) + "" == Row(record);
  }

  /** Any table reads back; only a record of one empty cell could be taken for the file's end. */
  lemma {:induction false} RecordsReadBack(records: seq<seq<string>>)
    requires records != [] && forall i :: 0 <= i < |records| ==> |records[i]| >= 2
    ensures Join("\r\n", Rows(records)) != ""
    ensures ParseCsv(Join("\r\n", Rows(records))) == Some(records)
  {
    RowStep(records[0]);
    if |records| == 1 {
      LastRecordReads(records[0]);
      assert records == [records[0]];
    } else {
      assert Rows(records)[1..] == Rows(records[1..]);
      RecordsReadBack(records[1..]);
      FirstRecordReads(records[0], Join("\r\n", Rows(records[1..])));
      assert records == [records[0]] + records[1..];
    }
  }

  predicate LettersFrom(s: string, i: nat)
    decreases |s| - i
  {
    i >= |s| || ('A' <= s[i] <= 'z' && LettersFrom(s, i + 1))
  }

  lemma {:induction false} LettersArePlain(s: string, i: nat)
    requires LettersFrom(s, i)
    ensures forall j :: i <= j < |s| ==> !NeedsQuotes(s[j])
    decreases |s| - i
  {
    if i < |s| {
      LettersArePlain(s, i + 1);
    }
  }

  lemma WordIsPlain(s: string)
    requires LettersFrom(s, 0)
    ensures EscapeCsvCell(s) == s
  {
    LettersArePlain(s, 0);
  }

  lemma FirstHeadersArePlain()
    ensures forall i :: 0 <= i < 6 ==> EscapeCsvCell(HEADERS[i]) == HEADERS[i]
  {
    WordIsPlain("title");
    WordIsPlain("column");
    WordIsPlain("priority");
    WordIsPlain("dueAt");
    WordIsPlain("tags");
    WordIsPlain("assignees");
  }

  lemma LastHeadersArePlain()
    ensures forall i :: 6 <= i < 11 ==> EscapeCsvCell(HEADERS[i]) == HEADERS[i]
  {
    WordIsPlain("assigneeUserId");
    WordIsPlain("assigneeName");
    WordIsPlain("completed");
    WordIsPlain("description");
    WordIsPlain("id");
  }

  lemma HeadersArePlain()
    ensures EscapeAll(HEADERS) == HEADERS
  {
    FirstHeadersArePlain();
    LastHeadersArePlain();
  }

  lemma RowsCons(header: seq<string>, table: seq<seq<string>>)
    ensures Rows([header] + table) == [Row(header)] + Rows(table)
  {
  }

  lemma TableReadsBack(header: seq<string>, table: seq<seq<string>>)
    requires |header| >= 2 && EscapeAll(header) == header && forall i :: 0 <= i < |table| ==> |table[i]| >= 2
    ensures ParseCsv(Join("\r\n", [Join(",", header)] + Rows(table))) == Some([header] + table)
  {
    var records := [header] + table;
    forall i | 0 <= i < |records|
      ensures |records[i]| >= 2
    {
      assert i > 0 ==> records[i] == table[i - 1];
    }
    RowsCons(header, table);
    RecordsReadBack(records);
  }

  /** Whatever the cells hold, a standard reader gets the header and the eleven cells of every
      task back, in order. */
  lemma CsvRoundTrip(tasks: seq<Task>, titles: map<string, string>)
    ensures ParseCsv(BuildTasksCsv(tasks, titles)) == Some([HEADERS] + Table(tasks, titles))
  {
    HeadersArePlain();
    TableReadsBack(HEADERS, Table(tasks, titles));
  }

  // --- which cell stands where ---

  /** The record has the cell in the column with this heading. */
  predicate Under(heading: string, cell: string, record: seq<string>) {
    exists i :: 0 <= i < |HEADERS| && i < |record| && HEADERS[i] == heading && record[i] == cell
  }

  lemma {:induction false} JoinNext(separator: string, xs: seq<string>, x: string)
    ensures Join(separator, xs + [x]) == if xs == [] then x else Join(separator, xs) + separator + x
  {
    if |xs| > 0 {
      assert (xs + [x])[1..] == xs[1..] + [x];
      JoinNext(separator, xs[1..], x);
    }
  }

  lemma {:induction false} NonEmptyNext(xs: seq<string>, x: string)
    ensures NonEmpty(xs + [x]) == NonEmpty(xs) + if x == "" then [] else [x]
  {
    if xs == [] {
      assert NonEmpty([x][1..]) == [];
    } else {
      assert (xs + [x])[1..] == xs[1..] + [x];
      NonEmptyNext(xs[1..], x);
    }
  }

  lemma AssigneeTextsNext(assignees: seq<Assignee>, a: Assignee)
    ensures AssigneeTexts(assignees + [a]) == AssigneeTexts(assignees) + [AssigneeText(a)]
  {
  }

  /** The people of a task, separated by semicolons: name and id, the id alone without a name, and nobody
      without either. */
  lemma AssigneesListed(assignees: seq<Assignee>, a: Assignee)
    ensures var (id, name, before) := (Trim(JavaScript, a.userId), Trim(JavaScript, a.displayName), AssigneesText(assignees));
      var entry := if name == "" then id else name + " (" + id + ")";
      AssigneesText(assignees + [a]) ==
        if entry == "" then before else if NonEmpty(AssigneeTexts(assignees)) == [] then entry else before + "; " + entry
  {
    var texts, text := AssigneeTexts(assignees), AssigneeText(a);
    AssigneeTextsNext(assignees, a);
    NonEmptyNext(texts, text);
    JoinNext("; ", NonEmpty(texts), text);
    assert NonEmpty(texts) + [] == NonEmpty(texts);
  }

  /** Every field of the task under its heading; the column by its title where it has one. */
  predicate RecordOf(titles: map<string, string>, task: Task, record: seq<string>) {
    var status := Trim(JavaScript, task.status);
    && Under("title", task.title, record) && Under("priority", task.priority, record) && Under("dueAt", task.dueAt, record)
    && Under("description", task.description, record) && Under("id", task.id, record)
    && Under("assigneeUserId", task.assigneeUserId, record) && Under("assigneeName", task.assigneeName, record)
    && Under("column", if status in titles && titles[status] != "" then titles[status] else status, record)
    && Under("completed", if task.completedAt == "" then "no" else "yes", record)
    && Under("tags", Join("; ", task.tags), record) && Under("assignees", AssigneesText(task.assignees), record)
  }

  lemma CellAt(i: nat, record: seq<string>)
    requires i < |HEADERS| && i < |record|
    ensures Under(HEADERS[i], record[i], record)
  {
  }

  lemma HeadingsAre()
    ensures HEADERS[0] == "title" && HEADERS[1] == "column" && HEADERS[2] == "priority" && HEADERS[3] == "dueAt"
    ensures HEADERS[4] == "tags" && HEADERS[5] == "assignees" && HEADERS[6] == "assigneeUserId" && HEADERS[7] == "assigneeName"
    ensures HEADERS[8] == "completed" && HEADERS[9] == "description" && HEADERS[10] == "id"
  {
  }

  lemma CellsInPlace(titles: map<string, string>, task: Task)
    ensures RecordOf(titles, task, Cells(titles, task))
  {
    var cells := Cells(titles, task);
    HeadingsAre();
    CellAt(0, cells);
    CellAt(1, cells);
    CellAt(2, cells);
    CellAt(3, cells);
    CellAt(4, cells);
    CellAt(5, cells);
    CellAt(6, cells);
    CellAt(7, cells);
    CellAt(8, cells);
    CellAt(9, cells);
    CellAt(10, cells);
  }

  /** So the reader finds, after the headings, every task in turn, each field under its own heading. */
  lemma TasksReadBack(tasks: seq<Task>, titles: map<string, string>, k: nat)
    requires k < |tasks|
    ensures var csv := ParseCsv(BuildTasksCsv(tasks, titles));
      csv.Some? && |csv.value| == |tasks| + 1 && csv.value[0] == HEADERS && RecordOf(titles, tasks[k], csv.value[k + 1])
  {
    CsvRoundTrip(tasks, titles);
    CellsInPlace(titles, tasks[k]);
  }
}
