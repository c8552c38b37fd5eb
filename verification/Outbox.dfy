/** The outbox that hands user events to the broker: rows wait, are taken up, and end published
    or dead; what fails waits longer before each retry. */
module Outbox {
  import opened Sorting

  datatype Status = Pending | Processing | Published | Dead

  /** Times are in seconds. The payload matters only in that it decodes or does not. */
  datatype Row = Row(eventType: string, decodable: bool, created: int, status: Status, attempts: nat, due: int)

  /** A row as the worker fetched it. */
  datatype Message = Message(id: string, eventType: string, decodable: bool, attemptCount: nat)

  type Rows = map<string, Row>

  // --- the delay ---

  function Pow2(k: nat): nat {
    if k == 0 then 1 else 2 * Pow2(k - 1)
  }

  /** One shifted left in a 64-bit signed integer. */
  function ShiftedOne(k: nat): int {
    var p: int := Pow2(k);
    if k <= 62 then p else if k == 63 then -p else 0
  }

  function CalculateBackoff(attemptCount: int): int {
    var seconds := ShiftedOne(if attemptCount < 0 then 0 else attemptCount);
    if seconds > 60 then 60 else seconds
  }

  /** The delay a failed row gets: the store does not go below a second. */
  function RetryDelay(attemptCount: int): (r: int)
    ensures r >= 1
  {
    if CalculateBackoff(attemptCount) < 1 then 1 else CalculateBackoff(attemptCount)
  }

  function Doubling(k: nat): nat {
    if Pow2(k) < 60 then Pow2(k) else 60
  }

  lemma {:induction false} Pow2Grows(j: nat, k: nat)
    requires j <= k
    ensures Pow2(j) <= Pow2(k)
  {
    if j < k {
      Pow2Grows(j, k - 1);
    }
  }

  /** The delay doubles up to a minute, until the shift runs out of bits. */
  lemma BackoffDoubles(k: nat)
    ensures CalculateBackoff(k) == Doubling(k) <==> k <= 62
    ensures k > 62 ==> CalculateBackoff(k) == if k == 63 then 0 - Pow2(63) as int else 0
    ensures RetryDelay(k) == if k <= 62 then Doubling(k) else 1
  {
    if k <= 62 {
      Pow2Grows(0, k);
    } else {
      Pow2Grows(6, k);
      assert Pow2(6) == 64;
      Pow2Grows(0, 63);
    }
  }

  /** How long the first a retries of a row wait in all. */
  function Waited(a: nat): nat {
    if a == 0 then 0 else Waited(a - 1) + RetryDelay(a - 1)
  }

  lemma SmallPowers()
    ensures Pow2(0) == 1 && Pow2(1) == 2 && Pow2(2) == 4 && Pow2(3) == 8 && Pow2(4) == 16 && Pow2(5) == 32 && Pow2(6) == 64
  {
  }

  lemma {:induction false} WaitedTotal(a: nat)
    ensures a < 6 ==> Waited(a) == Pow2(a) - 1
    ensures 6 <= a <= 63 ==> Waited(a) == 63 + 60 * (a - 6)
    ensures a > 63 ==> Waited(a) == 63 + 60 * 57 + (a - 63)
  {
    if a > 0 {
      WaitedTotal(a - 1);
      BackoffDoubles(a - 1);
      SmallPowers();
      if a - 1 >= 6 {
        Pow2Grows(6, a - 1);
      }
    }
  }

  /** With M attempts allowed, what a row waits in all before it is given up. */
  lemma TotalDelay(maxAttempts: nat)
    requires maxAttempts >= 1
    ensures maxAttempts < 7 ==> Waited(maxAttempts - 1) == Pow2(maxAttempts - 1) - 1
    ensures 7 <= maxAttempts <= 64 ==> Waited(maxAttempts - 1) == 63 + 60 * (maxAttempts - 7)
    ensures maxAttempts > 64 ==> Waited(maxAttempts - 1) == 3483 + (maxAttempts - 64)
  {
    WaitedTotal(maxAttempts - 1);
  }

  // --- one message ---

  predicate Known(eventType: string) {
    eventType == "user.created" || eventType == "user.updated"
  }

  /** Only a message that decodes, of a known type, reaches the publisher. */
  predicate Deliverable(eventType: string, decodable: bool) {
    decodable && Known(eventType)
  }

  predicate Sent(msg: Message, accepted: set<string>) {
    Deliverable(msg.eventType, msg.decodable) && msg.id in accepted
  }

  /** The row once the worker has dealt with its message; a mark the store refuses leaves it as
      it was, and the worker goes on. */
  function Marked(row: Row, msg: Message, maxAttempts: int, sent: bool, ok: bool, now: int): Row {
    if !ok then row
    else if sent then row.(status := Published)
    else if msg.attemptCount + 1 >= maxAttempts then row.(status := Dead)
    else row.(status := Pending, attempts := row.attempts + 1, due := now + RetryDelay(msg.attemptCount))
  }

  // --- the objects ---

  class OutboxStore {
    var rows: Rows

    constructor ()
      ensures rows == map[]
    {
      rows := map[];
    }

    method Enqueue(id: string, eventType: string, decodable: bool, now: int)
      requires id !in rows
      modifies this
      ensures rows == Enqueued(old(rows), id, eventType, decodable, now)
    {
      rows := rows[id := Row(eventType, decodable, now, Pending, 0, now)];
    }

    method FetchPendingOutbox(batchSize: int, now: int) returns (batch: seq<Message>)
      modifies this
      ensures IsBatch(old(rows), now, if batchSize <= 0 then 100 else batchSize, batch)
      ensures rows == Taken(old(rows), batch)
    {
      var size := if batchSize <= 0 then 100 else batchSize;
      var left := DueIds(rows, now);
      batch := [];
      while |batch| < size && left != {}
        invariant rows == old(rows) && |batch| <= size
        invariant left <= DueIds(rows, now) && left == DueIds(rows, now) - Ids(batch)
        invariant Fetched(rows, now, batch) && NoDup(batch)
        invariant forall i, d :: 0 <= i < |batch| && d in left ==> rows[batch[i].id].created <= rows[d].created
        decreases left
      {
        var id := Oldest(rows, left);
        var row := rows[id];
        var msg := Message(id, row.eventType, row.decodable, row.attempts);
        IdsGrow(batch, msg);
        left := left - {id};
        batch := batch + [msg];
      }
      assert Ids(batch) <= DueIds(rows, now);
      if |batch| < size {
        var due := DueIds(rows, now);
        assert forall d :: d in due && d !in Ids(batch) ==> d in left;
        assert Ids(batch) == DueIds(rows, now);
      }
      rows := Taken(rows, batch);
    }

    method MarkOutboxPublished(id: string, ok: bool)
      requires id in rows
      modifies this
      ensures rows == if ok then old(rows)[id := old(rows)[id].(status := Published)] else old(rows)
    {
      if ok {
        rows := rows[id := rows[id].(status := Published)];
      }
    }

    method MarkOutboxFailed(id: string, retryAfterSeconds: int, ok: bool, now: int)
      requires id in rows
      modifies this
      ensures rows == if !ok then old(rows) else
                var row := old(rows)[id];
                old(rows)[id := row.(status := Pending, attempts := row.attempts + 1,
                                     due := now + if retryAfterSeconds < 1 then 1 else retryAfterSeconds)]
    {
      if ok {
        var wait := if retryAfterSeconds < 1 then 1 else retryAfterSeconds;
        rows := rows[id := rows[id].(status := Pending, attempts := rows[id].attempts + 1, due := now + wait)];
      }
    }

    method MarkOutboxDead(id: string, ok: bool)
      requires id in rows
      modifies this
      ensures rows == if ok then old(rows)[id := old(rows)[id].(status := Dead)] else old(rows)
    {
      if ok {
        rows := rows[id := rows[id].(status := Dead)];
      }
    }
  }

  /** The broker, as far as the worker can see: the ids it was asked to publish, in order. */
  class Publisher {
    var calls: seq<string>

    constructor ()
      ensures calls == []
    {
      calls := [];
    }

    method Publish(id: string, accepted: set<string>) returns (ok: bool)
      modifies this
      ensures calls == old(calls) + [id] && ok == (id in accepted)
    {
      calls := calls + [id];
      ok := id in accepted;
    }
  }

  class OutboxWorker {
    const repo: OutboxStore
    const publisher: Publisher
    const batchSize: int
    const maxAttempts: int

    constructor (repo: OutboxStore, publisher: Publisher, batchSize: int, maxAttempts: int)
      ensures this.repo == repo && this.publisher == publisher
      ensures this.batchSize == if batchSize <= 0 then 100 else batchSize
      ensures this.maxAttempts == if maxAttempts <= 0 then 10 else maxAttempts
    {
      this.repo, this.publisher := repo, publisher;
      this.batchSize := if batchSize <= 0 then 100 else batchSize;
      this.maxAttempts := if maxAttempts <= 0 then 10 else maxAttempts;
    }

    method PublishMessage(msg: Message, accepted: set<string>) returns (ok: bool)
      modifies publisher
      ensures ok == Sent(msg, accepted)
      ensures publisher.calls == old(publisher.calls) + Called([msg])
    {
      if !msg.decodable || !Known(msg.eventType) {
        return false;
      }
      ok := publisher.Publish(msg.id, accepted);
    }

    method Handle(msg: Message, r: Round) returns (sent: bool)
      requires msg.id in repo.rows
      modifies repo, publisher
      ensures sent == Sent(msg, r.accepted)
      ensures repo.rows == Handled(old(repo.rows), msg, maxAttempts, r)
      ensures publisher.calls == old(publisher.calls) + Called([msg])
    {
      var ok := msg.id !in r.unmarked;
      sent := PublishMessage(msg, r.accepted);
      if !sent {
        if msg.attemptCount + 1 >= maxAttempts {
          repo.MarkOutboxDead(msg.id, ok);
          return;
        }
        var retryAfter := CalculateBackoff(msg.attemptCount);
        repo.MarkOutboxFailed(msg.id, retryAfter, ok, r.now);
        return;
      }
      repo.MarkOutboxPublished(msg.id, ok);
    }

    /** One flush: the rows taken up are handled one after the other. */
    method RunOnce(r: Round) returns (published: nat, ghost batch: seq<Message>)
      modifies repo, publisher
      ensures IsBatch(old(repo.rows), r.now, if batchSize <= 0 then 100 else batchSize, batch)
      ensures repo.rows == AllHandled(Taken(old(repo.rows), batch), batch, maxAttempts, r)
      ensures publisher.calls == old(publisher.calls) + Called(batch)
      ensures published == SentCount(batch, r.accepted)
    {
      var fetched := repo.FetchPendingOutbox(batchSize, r.now);
      batch := fetched;
      ghost var taken := repo.rows;
      published := 0;
      for i := 0 to |fetched|
        invariant repo.rows == AllHandled(taken, fetched[..i], maxAttempts, r)
        invariant repo.rows.Keys == taken.Keys
        invariant publisher.calls == old(publisher.calls) + Called(fetched[..i])
        invariant published == SentCount(fetched[..i], r.accepted)
      {
        assert fetched[..i + 1][..i] == fetched[..i];
        var sent := Handle(fetched[i], r);
        if sent {
          published := published + 1;
        }
        CalledStep(fetched, i);
      }
      assert fetched[..|fetched|] == fetched;
    }
  }

  /** What the surroundings decide in a round: the time, which messages the broker accepts, and
      which marks the store refuses. */
  datatype Round = Round(now: int, accepted: set<string>, unmarked: set<string>)

  // --- what the methods compute ---

  function Enqueued(rows: Rows, id: string, eventType: string, decodable: bool, now: int): Rows {
    rows[id := Row(eventType, decodable, now, Pending, 0, now)]
  }

  function DueIds(rows: Rows, now: int): set<string> {
    set id | id in rows && rows[id].status == Pending && rows[id].due <= now
  }

  function Ids(batch: seq<Message>): set<string> {
    set m | m in batch :: m.id
  }

  lemma IdsGrow(batch: seq<Message>, msg: Message)
    ensures Ids(batch + [msg]) == Ids(batch) + {msg.id}
  {
    assert msg in batch + [msg];
    assert forall m :: m in batch ==> m in batch + [msg];
  }

  ghost predicate Fetched(rows: Rows, now: int, batch: seq<Message>) {
    forall i :: 0 <= i < |batch| ==> FetchedFrom(rows, now, batch[i])
  }

  predicate FetchedFrom(rows: Rows, now: int, msg: Message) {
    msg.id in DueIds(rows, now) && msg == Message(msg.id, rows[msg.id].eventType, rows[msg.id].decodable, rows[msg.id].attempts)
  }

  /** The oldest due rows, each once, as many as fit. */
  ghost predicate IsBatch(rows: Rows, now: int, size: int, batch: seq<Message>) {
    && NoDup(batch) && Fetched(rows, now, batch)
    && (|batch| == size || (|batch| < size && Ids(batch) == DueIds(rows, now)))
    && (forall i, d :: 0 <= i < |batch| && d in DueIds(rows, now) - Ids(batch) ==> rows[batch[i].id].created <= rows[d].created)
  }

  function Taken(rows: Rows, batch: seq<Message>): Rows {
    map id | id in rows :: if id in Ids(batch) then rows[id].(status := Processing) else rows[id]
  }

  method Oldest(rows: Rows, ids: set<string>) returns (id: string)
    requires ids != {} && ids <= rows.Keys
    ensures id in ids && forall d :: d in ids ==> rows[id].created <= rows[d].created
  {
    id :| id in ids;
    var rest := ids - {id};
    while rest != {}
      invariant rest <= ids && id in ids
      invariant forall d :: d in ids - rest ==> rows[id].created <= rows[d].created
      decreases rest
    {
      var d :| d in rest;
      rest := rest - {d};
      if rows[d].created < rows[id].created {
        id := d;
      }
    }
  }

  function Handled(rows: Rows, msg: Message, maxAttempts: int, r: Round): Rows
    requires msg.id in rows
  {
    rows[msg.id := Marked(rows[msg.id], msg, maxAttempts, Sent(msg, r.accepted), msg.id !in r.unmarked, r.now)]
  }

  function AllHandled(rows: Rows, batch: seq<Message>, maxAttempts: int, r: Round): (result: Rows)
    requires forall i :: 0 <= i < |batch| ==> batch[i].id in rows
    ensures result.Keys == rows.Keys
  {
    if batch == [] then rows else
      Handled(AllHandled(rows, batch[..|batch| - 1], maxAttempts, r), batch[|batch| - 1], maxAttempts, r)
  }

  function Called(batch: seq<Message>): seq<string> {
    if batch == [] then [] else
      Called(batch[..|batch| - 1]) +
        var m := batch[|batch| - 1]; if Deliverable(m.eventType, m.decodable) then [m.id] else []
  }

  lemma CalledStep(batch: seq<Message>, i: nat)
    requires i < |batch|
    ensures Called(batch[..i + 1]) == Called(batch[..i]) + Called([batch[i]])
  {
    assert batch[..i + 1][..i] == batch[..i];
  }

  function SentCount(batch: seq<Message>, accepted: set<string>): nat {
    if batch == [] then 0 else
      SentCount(batch[..|batch| - 1], accepted) + if Sent(batch[|batch| - 1], accepted) then 1 else 0
  }

  // --- what a round does to each row ---

  function MessageOf(rows: Rows, id: string): Message
    requires id in rows
  {
    Message(id, rows[id].eventType, rows[id].decodable, rows[id].attempts)
  }

  predicate DeliverableRow(row: Row) {
    Deliverable(row.eventType, row.decodable)
  }

  /** A round, row by row: a row not taken up is as before, and one taken up has been handled once. */
  function RowAfter(row: Row, msg: Message, maxAttempts: int, r: Round): Row {
    Marked(row.(status := Processing), msg, maxAttempts, Sent(msg, r.accepted), msg.id !in r.unmarked, r.now)
  }

  ghost predicate DistinctIds(batch: seq<Message>) {
    forall i, j :: 0 <= i < j < |batch| ==> batch[i].id != batch[j].id
  }

  lemma {:induction false} HandledOnce(rows: Rows, batch: seq<Message>, maxAttempts: int, r: Round, id: string)
    requires DistinctIds(batch) && id in rows && forall i :: 0 <= i < |batch| ==> batch[i].id in rows
    ensures id !in Ids(batch) ==> AllHandled(rows, batch, maxAttempts, r)[id] == rows[id]
    ensures forall i :: 0 <= i < |batch| && batch[i].id == id ==>
      AllHandled(rows, batch, maxAttempts, r)[id] == Marked(rows[id], batch[i], maxAttempts, Sent(batch[i], r.accepted), id !in r.unmarked, r.now)
  {
    if batch != [] {
      var n := |batch| - 1;
      HandledOnce(rows, batch[..n], maxAttempts, r, id);
      assert batch == batch[..n] + [batch[n]];
      IdsGrow(batch[..n], batch[n]);
      if batch[n].id == id {
        assert id !in Ids(batch[..n]);
      }
    }
  }

  lemma {:induction false} CalledOnce(batch: seq<Message>, id: string)
    requires DistinctIds(batch)
    ensures id !in Ids(batch) ==> multiset(Called(batch))[id] == 0
    ensures forall i :: 0 <= i < |batch| && batch[i].id == id ==>
      multiset(Called(batch))[id] == if Deliverable(batch[i].eventType, batch[i].decodable) then 1 else 0
  {
    if batch != [] {
      var n := |batch| - 1;
      CalledOnce(batch[..n], id);
      assert batch == batch[..n] + [batch[n]];
      IdsGrow(batch[..n], batch[n]);
      if batch[n].id == id {
        assert id !in Ids(batch[..n]);
      }
    }
  }

  // --- whole runs ---

  datatype Outbox = Outbox(rows: Rows, calls: seq<string>)

  datatype Step =
    | Enqueue(id: string, eventType: string, decodable: bool, now: int)
    | Flush(size: int, batch: seq<Message>, round: Round)

  ghost predicate Allowed(o: Outbox, e: Step) {
    match e
    case Enqueue(id, _, _, _) => id !in o.rows
    case Flush(size, batch, r) => IsBatch(o.rows, r.now, size, batch)
  }

  ghost function Next(o: Outbox, maxAttempts: int, e: Step): Outbox
    requires Allowed(o, e)
  {
    match e
    case Enqueue(id, eventType, decodable, now) => o.(rows := Enqueued(o.rows, id, eventType, decodable, now))
    case Flush(_, batch, r) =>
      Outbox(AllHandled(Taken(o.rows, batch), batch, maxAttempts, r), o.calls + Called(batch))
  }

  /** The account of one row: every attempt of a deliverable message is one call to the broker,
      the last one included; an undeliverable message never gets there. */
  ghost predicate Accounted(row: Row, calls: nat, maxAttempts: int) {
    && row.attempts < maxAttempts
    && (row.status == Dead ==> row.attempts == maxAttempts - 1)
    && (row.status == Published ==> DeliverableRow(row))
    && calls == (if !DeliverableRow(row) then 0 else row.attempts + if row.status == Pending then 0 else 1)
    && row.due >= row.created + Waited(row.attempts)
  }

  ghost predicate Good(o: Outbox, maxAttempts: int) {
    && (forall id :: id in o.rows ==> Accounted(o.rows[id], multiset(o.calls)[id], maxAttempts))
    && (forall id :: id in o.calls ==> id in o.rows)
  }

  /** What a flush does to the row of one id, and how often it calls the broker for it. */
  lemma FlushAt(o: Outbox, maxAttempts: int, e: Step, id: string)
    requires e.Flush? && Allowed(o, e) && id in o.rows
    ensures id in Next(o, maxAttempts, e).rows
    ensures var (row, calls) := (o.rows[id], multiset(o.calls)[id]);
            var o' := Next(o, maxAttempts, e);
            if id in Ids(e.batch) then
              && row.status == Pending && row.due <= e.round.now
              && o'.rows[id] == RowAfter(row, MessageOf(o.rows, id), maxAttempts, e.round)
              && multiset(o'.calls)[id] == calls + if DeliverableRow(row) then 1 else 0
            else o'.rows[id] == row && multiset(o'.calls)[id] == calls
  {
    HandledOnce(Taken(o.rows, e.batch), e.batch, maxAttempts, e.round, id);
    CalledOnce(e.batch, id);
    if id in Ids(e.batch) {
      var i :| 0 <= i < |e.batch| && e.batch[i].id == id;
      assert FetchedFrom(o.rows, e.round.now, e.batch[i]);
    }
  }

  lemma RowAccount(row: Row, msg: Message, calls: nat, maxAttempts: int, r: Round)
    requires Accounted(row, calls, maxAttempts) && row.status == Pending && row.due <= r.now
    requires msg == Message(msg.id, row.eventType, row.decodable, row.attempts)
    ensures Accounted(RowAfter(row, msg, maxAttempts, r), calls + if DeliverableRow(row) then 1 else 0, maxAttempts)
  {
  }

  lemma FlushAccount(o: Outbox, maxAttempts: int, e: Step, id: string)
    requires e.Flush? && Allowed(o, e) && id in o.rows
    requires Accounted(o.rows[id], multiset(o.calls)[id], maxAttempts)
    ensures var o' := Next(o, maxAttempts, e); id in o'.rows && Accounted(o'.rows[id], multiset(o'.calls)[id], maxAttempts)
  {
    FlushAt(o, maxAttempts, e, id);
    if id in Ids(e.batch) {
      RowAccount(o.rows[id], MessageOf(o.rows, id), multiset(o.calls)[id], maxAttempts, e.round);
    }
  }

  lemma EnqueueKeepsGood(o: Outbox, maxAttempts: int, e: Step)
    requires maxAttempts >= 1 && Good(o, maxAttempts) && Allowed(o, e) && e.Enqueue?
    ensures Good(Next(o, maxAttempts, e), maxAttempts)
  {
    assert e.id !in o.calls;
    assert multiset(o.calls)[e.id] == 0;
  }

  lemma FlushKeepsGood(o: Outbox, maxAttempts: int, e: Step)
    requires Good(o, maxAttempts) && Allowed(o, e) && e.Flush?
    ensures Good(Next(o, maxAttempts, e), maxAttempts)
  {
    var o' := Next(o, maxAttempts, e);
    assert o'.rows.Keys == o.rows.Keys && o'.calls == o.calls + Called(e.batch);
    forall id | id in o'.rows
      ensures Accounted(o'.rows[id], multiset(o'.calls)[id], maxAttempts)
    {
      FlushAccount(o, maxAttempts, e, id);
    }
    forall id | id in o'.calls
      ensures id in o'.rows
    {
      if id in Called(e.batch) {
        CalledFrom(e.batch, id);
      }
    }
  }

  lemma StepKeepsGood(o: Outbox, maxAttempts: int, e: Step)
    requires maxAttempts >= 1 && Good(o, maxAttempts) && Allowed(o, e)
    ensures Good(Next(o, maxAttempts, e), maxAttempts)
  {
    match e
    case Enqueue(_, _, _, _) => EnqueueKeepsGood(o, maxAttempts, e);
    case Flush(_, _, _) => FlushKeepsGood(o, maxAttempts, e);
  }

  lemma {:induction false} CalledFrom(batch: seq<Message>, id: string)
    requires id in Called(batch)
    ensures id in Ids(batch)
  {
    if batch != [] {
      var n := |batch| - 1;
      assert batch == batch[..n] + [batch[n]];
      if id in Called(batch[..n]) {
        CalledFrom(batch[..n], id);
      }
    }
  }

  ghost predicate AllowedRun(o: Outbox, maxAttempts: int, run: seq<Step>)
    decreases run
  {
    run == [] || (Allowed(o, run[0]) && AllowedRun(Next(o, maxAttempts, run[0]), maxAttempts, run[1..]))
  }

  ghost function After(o: Outbox, maxAttempts: int, run: seq<Step>): Outbox
    requires AllowedRun(o, maxAttempts, run)
    decreases run
  {
    if run == [] then o else After(Next(o, maxAttempts, run[0]), maxAttempts, run[1..])
  }

  const EMPTY_OUTBOX := Outbox(map[], [])

  /** Over every run, refused marks included, every row's account holds. */
  lemma {:induction false} RunsKeepAccounts(o: Outbox, maxAttempts: int, run: seq<Step>)
    requires maxAttempts >= 1 && Good(o, maxAttempts) && AllowedRun(o, maxAttempts, run)
    ensures Good(After(o, maxAttempts, run), maxAttempts)
    decreases run
  {
    if run != [] {
      StepKeepsGood(o, maxAttempts, run[0]);
      RunsKeepAccounts(Next(o, maxAttempts, run[0]), maxAttempts, run[1..]);
    }
  }

  /** No message is handed to the broker more than maxAttempts times, and a deliverable one is
      given up only after exactly that many. */
  lemma DeliveriesBounded(maxAttempts: int, run: seq<Step>, id: string)
    requires maxAttempts >= 1 && AllowedRun(EMPTY_OUTBOX, maxAttempts, run)
    ensures var o := After(EMPTY_OUTBOX, maxAttempts, run);
            && multiset(o.calls)[id] <= maxAttempts
            && (id in o.rows && o.rows[id].status == Dead && DeliverableRow(o.rows[id]) ==> multiset(o.calls)[id] == maxAttempts)
            && (id in o.rows && o.rows[id].status == Published ==> multiset(o.calls)[id] == o.rows[id].attempts + 1)
  {
    RunsKeepAccounts(EMPTY_OUTBOX, maxAttempts, run);
    var o := After(EMPTY_OUTBOX, maxAttempts, run);
    if id in o.rows {
      assert Accounted(o.rows[id], multiset(o.calls)[id], maxAttempts);
    }
  }

  /** A row is given up only after it has waited out all its retries. */
  lemma DeadOnlyAfterWaiting(o: Outbox, maxAttempts: int, e: Step, id: string)
    requires Good(o, maxAttempts) && Allowed(o, e) && e.Flush?
    requires id in o.rows && o.rows[id].status != Dead
    ensures var o' := Next(o, maxAttempts, e);
            id in o'.rows && (o'.rows[id].status == Dead ==> e.round.now >= o.rows[id].created + Waited(maxAttempts - 1))
  {
    FlushAt(o, maxAttempts, e, id);
    var row := o.rows[id];
    assert Accounted(row, multiset(o.calls)[id], maxAttempts);
    if id in Ids(e.batch) && RowAfter(row, MessageOf(o.rows, id), maxAttempts, e.round).status == Dead {
      assert row.attempts == maxAttempts - 1;
    }
  }

  // --- no message is lost ---

  /** No flush has a mark refused for a row of its own batch. */
  ghost predicate MarksSucceed(run: seq<Step>) {
    forall i :: 0 <= i < |run| && run[i].Flush? ==> run[i].round.unmarked !! Ids(run[i].batch)
  }

  function EnqueuedIds(run: seq<Step>): set<string> {
    set e | e in run && e.Enqueue? :: e.id
  }

  ghost predicate NoneProcessing(o: Outbox) {
    forall id :: id in o.rows ==> o.rows[id].status != Processing
  }

  /** One step: rows never vanish, final rows never change, and a row is left half-way exactly
      when its mark is refused. */
  lemma StepConserves(o: Outbox, maxAttempts: int, e: Step)
    requires Allowed(o, e)
    ensures var o' := Next(o, maxAttempts, e);
            && o'.rows.Keys == o.rows.Keys + EnqueuedIds([e])
            && (forall id :: id in o.rows && (o.rows[id].status == Published || o.rows[id].status == Dead) ==> o'.rows[id] == o.rows[id])
            && (NoneProcessing(o) ==> (NoneProcessing(o') <==> MarksSucceed([e])))
  {
    match e
    case Enqueue(id, _, _, _) =>
      assert e in [e];
    case Flush(_, _, _) =>
      FlushConserves(o, maxAttempts, e);
      assert MarksSucceed([e]) <==> [e][0].round.unmarked !! Ids([e][0].batch);
  }

  lemma FlushConserves(o: Outbox, maxAttempts: int, e: Step)
    requires e.Flush? && Allowed(o, e)
    ensures var o' := Next(o, maxAttempts, e);
            && o'.rows.Keys == o.rows.Keys
            && (forall id :: id in o.rows && (o.rows[id].status == Published || o.rows[id].status == Dead) ==> o'.rows[id] == o.rows[id])
            && (NoneProcessing(o) ==> (NoneProcessing(o') <==> e.round.unmarked !! Ids(e.batch)))
  {
    var o' := Next(o, maxAttempts, e);
    assert o'.rows.Keys == o.rows.Keys;
    forall id | id in o.rows
      ensures (o.rows[id].status == Published || o.rows[id].status == Dead) ==> o'.rows[id] == o.rows[id]
      ensures o.rows[id].status != Processing ==> (o'.rows[id].status == Processing <==> id in e.round.unmarked && id in Ids(e.batch))
    {
      FlushAt(o, maxAttempts, e, id);
    }
    assert forall id :: id in Ids(e.batch) ==> id in o.rows;
  }

  /** Rows are neither lost nor invented, and final ones stay as they are. Pending, published and
      dead rows together are exactly what was enqueued if and only if no mark is refused. */
  lemma {:induction false} OutboxConserved(o: Outbox, maxAttempts: int, run: seq<Step>)
    requires AllowedRun(o, maxAttempts, run)
    ensures var o' := After(o, maxAttempts, run);
            && o'.rows.Keys == o.rows.Keys + EnqueuedIds(run)
            && (forall id :: id in o.rows && (o.rows[id].status == Published || o.rows[id].status == Dead) ==> o'.rows[id] == o.rows[id])
            && (NoneProcessing(o) ==> (NoneProcessing(o') <==> MarksSucceed(run)))
    decreases run
  {
    if run != [] {
      var o1 := Next(o, maxAttempts, run[0]);
      StepConserves(o, maxAttempts, run[0]);
      OutboxConserved(o1, maxAttempts, run[1..]);
      assert run == [run[0]] + run[1..];
      assert EnqueuedIds(run) == EnqueuedIds([run[0]]) + EnqueuedIds(run[1..]);
      MarksSplit(run);
      if !NoneProcessing(o1) {
        var id :| id in o1.rows && o1.rows[id].status == Processing;
        RefusedMarkStrands(o1, maxAttempts, run[1..], id);
      }
    }
  }

  lemma MarksSplit(run: seq<Step>)
    requires run != []
    ensures MarksSucceed(run) <==> MarksSucceed([run[0]]) && MarksSucceed(run[1..])
  {
    assert [run[0]][0] == run[0];
    assert forall i :: 0 < i < |run| ==> run[i] == run[1..][i - 1];
  }

  /** A row whose mark was refused is never taken up again: it stays as it is for ever. */
  lemma {:induction false} RefusedMarkStrands(o: Outbox, maxAttempts: int, run: seq<Step>, id: string)
    requires AllowedRun(o, maxAttempts, run) && id in o.rows && o.rows[id].status == Processing
    ensures var o' := After(o, maxAttempts, run); id in o'.rows && o'.rows[id] == o.rows[id]
    decreases run
  {
    if run != [] {
      if run[0].Flush? {
        FlushAt(o, maxAttempts, run[0], id);
      }
      RefusedMarkStrands(Next(o, maxAttempts, run[0]), maxAttempts, run[1..], id);
    }
  }

  // --- what a flush does, spelt out ---

  /** The worker knows two kinds of event, and reads only payloads that decode. */
  predicate Readable(row: Row) {
    row.decodable && (row.eventType == "user.created" || row.eventType == "user.updated")
  }

  /** How a row fares that a flush takes up: stuck when its mark is refused, published when the broker
      accepts it, dead after its last attempt, and otherwise due again after twice the delay, a minute at
      most and a second once the shift has run out. */
  predicate Fares(row: Row, after: Row, accepted: bool, marked: bool, maxAttempts: int, now: int) {
    if !marked then after == row.(status := Processing)
    else if Readable(row) && accepted then after == row.(status := Published)
    else if row.attempts + 1 >= maxAttempts then after == row.(status := Dead)
    else after == row.(status := Pending, attempts := row.attempts + 1, due := now + if row.attempts > 62 then 1 else Doubling(row.attempts))
  }

  /** A flush takes up due rows only, and all of them when they fit. */
  lemma FlushTakes(rows: Rows, now: int, size: int, batch: seq<Message>, id: string)
    requires IsBatch(rows, now, size, batch) && id in rows
    ensures id in Ids(batch) ==> rows[id].status == Pending && rows[id].due <= now
    ensures |batch| < size && rows[id].status == Pending && rows[id].due <= now ==> id in Ids(batch)
  {
    if id in Ids(batch) {
      var i :| 0 <= i < |batch| && batch[i].id == id;
      assert FetchedFrom(rows, now, batch[i]);
    }
  }

  /** Each row taken up fares by the rules, and the broker is asked once, for readable rows; the other rows
      stay as they are. */
  lemma FlushDoes(o: Outbox, maxAttempts: int, e: Step, id: string)
    requires e.Flush? && Allowed(o, e) && id in o.rows
    ensures var (o', r) := (Next(o, maxAttempts, e), e.round);
      if id !in Ids(e.batch) then id in o'.rows && o'.rows[id] == o.rows[id] && multiset(o'.calls)[id] == multiset(o.calls)[id]
      else
        id in o'.rows && Fares(o.rows[id], o'.rows[id], id in r.accepted, id !in r.unmarked, maxAttempts, r.now) &&
        multiset(o'.calls)[id] == multiset(o.calls)[id] + if Readable(o.rows[id]) then 1 else 0
  {
    FlushAt(o, maxAttempts, e, id);
    BackoffDoubles(o.rows[id].attempts);
  }

  /** A new row is pending and due at once. */
  lemma EnqueueDoes(o: Outbox, maxAttempts: int, e: Step)
    requires e.Enqueue? && Allowed(o, e)
    ensures Next(o, maxAttempts, e).rows == o.rows[e.id := Row(e.eventType, e.decodable, e.now, Pending, 0, e.now)]
    ensures Next(o, maxAttempts, e).calls == o.calls
  {
  }

  lemma {:induction false} BatchFrom(rows: Rows, now: int, size: nat, batch: seq<Message>) returns (more: seq<Message>)
    requires |batch| <= size && NoDup(batch) && Fetched(rows, now, batch)
    requires forall i, d :: 0 <= i < |batch| && d in DueIds(rows, now) - Ids(batch) ==> rows[batch[i].id].created <= rows[d].created
    ensures IsBatch(rows, now, size, more)
    decreases size - |batch|
  {
    var left := DueIds(rows, now) - Ids(batch);
    if |batch| == size || left == {} {
      more := batch;
      assert forall i :: 0 <= i < |batch| ==> FetchedFrom(rows, now, batch[i]);
      assert Ids(batch) <= DueIds(rows, now);
      if left == {} {
        assert forall d :: d in DueIds(rows, now) ==> d in Ids(batch) || d in left;
        assert Ids(batch) == DueIds(rows, now);
      }
    } else {
      var id := OldestOf(rows, left);
      var msg := MessageOf(rows, id);
      IdsGrow(batch, msg);
      assert forall i :: 0 <= i < |batch| ==> batch[i] != msg;
      more := BatchFrom(rows, now, size, batch + [msg]);
    }
  }

  lemma {:induction false} OldestOf(rows: Rows, ids: set<string>) returns (id: string)
    requires ids != {} && ids <= rows.Keys
    ensures id in ids && forall d :: d in ids ==> rows[id].created <= rows[d].created
    decreases ids
  {
    id :| id in ids;
    if ids != {id} {
      var other := OldestOf(rows, ids - {id});
      if rows[other].created < rows[id].created {
        id := other;
      }
    }
  }

  /** Whatever is due, there is a batch to take up: no flush is held up. */
  lemma BatchExists(rows: Rows, now: int, size: nat)
    ensures exists batch :: IsBatch(rows, now, size, batch)
  {
    var batch := BatchFrom(rows, now, size, []);
  }

  /** The messages of a batch the broker takes. */
  function Accepted(batch: seq<Message>, accepted: set<string>): set<Message> {
    set m | m in batch && m.decodable && (m.eventType == "user.created" || m.eventType == "user.updated") && m.id in accepted
  }

  /** What a flush reports is how many of its messages the broker took. */
  lemma {:induction false} SentAreCounted(batch: seq<Message>, accepted: set<string>)
    requires NoDup(batch)
    ensures SentCount(batch, accepted) == |Accepted(batch, accepted)|
  {
    if batch != [] {
      var init, last := batch[..|batch| - 1], batch[|batch| - 1];
      SentAreCounted(init, accepted);
      assert batch == init + [last] && last !in init;
      if Sent(last, accepted) {
        assert Accepted(batch, accepted) == Accepted(init, accepted) + {last};
      } else {
        assert Accepted(batch, accepted) == Accepted(init, accepted);
      }
    }
  }
}
