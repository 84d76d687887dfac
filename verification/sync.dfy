/** The offline outbox (services/syncService.ts): `addToQueue` stores an
    e-mail job, `processQueue` drains a snapshot of the queue, deleting an
    item only when the send endpoint answered with an ok status. The network
    is an oracle: `respond(k)` is the endpoint's answer to the k-th POST of
    one drain. */
module Sync {
  import opened Wrappers
  import Store
  import opened Db

  /** The four fields of an e-mail job: the argument of `addToQueue` (the
      queue item without `createdAt`) and the JSON body POSTed to
      `/api/send-email`. */
  datatype Email = Email(to: string, subject: string, html: string, attachments: Option<seq<Attachment>>)

  /** `{ ...emailData, createdAt }`. */
  function Enqueued(e: Email, createdAt: int): EmailQueueItem {
    EmailQueueItem(e.to, e.subject, e.html, e.attachments, createdAt)
  }

  /** The body the drain sends for a queue item: `to`, `subject`, `html` and
      `attachments`; neither the key nor `createdAt` is sent. */
  function PayloadOf(item: EmailQueueItem): Email {
    Email(item.to, item.subject, item.html, item.attachments)
  }

  /** What is queued is exactly what is later sent. */
  lemma {:induction false} EnqueuedPayloadRoundTrip(e: Email, createdAt: int)
    ensures PayloadOf(Enqueued(e, createdAt)) == e
    ensures Enqueued(e, createdAt).createdAt == createdAt
  {
  }

  /** A queue item is determined by what is sent plus its enqueue time. */
  lemma PayloadDeterminesItem(item: EmailQueueItem)
    ensures Enqueued(PayloadOf(item), item.createdAt) == item
  {
  }

  // ----- addToQueue -----

  /** `addToQueue(email)` at time `now`: opens the database and adds one
      item with the given fields and `createdAt = now` under a fresh key.
      An open or write failure is returned, never swallowed. */
  function AddToQueue(db: Database, e: Email, now: int, available: bool, writeOk: bool): (r: Stored<nat>)
    requires Valid(db)
    ensures Valid(r.db)
    ensures r.result.Success? <==> available && db.version <= DbVersion && writeOk
    ensures Open(db, available).Failure? ==> r == Stored(db, Failure(Open(db, available).error))
    ensures Open(db, available).Success? && !writeOk ==>
      r == Stored(Open(db, available).value, Failure(WriteFailed))
    ensures r.result.Success? ==>
      var before := Open(db, available).value;
      var key := r.result.value;
      && r.db.inspections == before.inspections && r.db.version == before.version
      && r.db.queue.Some?
      && key !in before.queue.value.records
      && r.db.queue.value.records == before.queue.value.records[key := Enqueued(e, now)]
  {
    match Open(db, available)
    case Failure(err) => Stored(db, Failure(err))
    case Success(handle) =>
      if !writeOk then Stored(handle, Failure(WriteFailed))
      else
        var (q, key) := Store.Add(handle.queue.value, Enqueued(e, now));
        Stored(handle.(queue := Some(q)), Success(key))
  }

  /** Enqueueing the same e-mail twice yields two separate items. */
  lemma {:induction false} NoDeduplication(db: Database, e: Email, now: int)
    requires Ready(db)
    ensures var first := AddToQueue(db, e, now, true, true);
            var second := AddToQueue(first.db, e, now, true, true);
            && first.result.Success? && second.result.Success?
            && first.result.value != second.result.value
            && first.result.value in second.db.queue.value.records
            && second.result.value in second.db.queue.value.records
            && |second.db.queue.value.records| == |db.queue.value.records| + 2
  {
    var first := AddToQueue(db, e, now, true, true);
    var second := AddToQueue(first.db, e, now, true, true);
    var k1 := first.result.value;
    var k2 := second.result.value;
    assert first.db.queue.value.records == db.queue.value.records[k1 := Enqueued(e, now)];
    assert k1 !in db.queue.value.records;
    assert |first.db.queue.value.records| == |db.queue.value.records| + 1;
    assert second.db.queue.value.records == first.db.queue.value.records[k2 := Enqueued(e, now)];
    assert k2 !in first.db.queue.value.records;
  }

  // ----- processQueue -----

  /** What `fetch` produced for one POST: a response with a status, or a
      rejection (network error). */
  datatype SendOutcome = Responded(status: int) | Threw

  /** `response.ok`: a status in 200..299. */
  predicate Delivered(o: SendOutcome)
    ensures Delivered(o) <==> o.Responded? && o.status / 100 == 2
  {
    o.Responded? && 200 <= o.status <= 299
  }

  /** The keys of the snapshot entries from position `i` on whose POST was
      answered ok. */
  function DeliveredIds(items: seq<Store.Keyed<EmailQueueItem>>, respond: nat -> SendOutcome, i: nat): set<nat>
    requires i <= |items|
  {
    set j | i <= j < |items| && Delivered(respond(j)) :: items[j].id
  }

  /** The snapshot entries from position `i` on whose POST was not answered
      ok, in snapshot order. */
  function Failures(items: seq<Store.Keyed<EmailQueueItem>>, respond: nat -> SendOutcome, i: nat)
    : (r: seq<Store.Keyed<EmailQueueItem>>)
    requires i <= |items|
    ensures |r| <= |items| - i
    ensures forall j :: i <= j < |items| && !Delivered(respond(j)) ==> items[j] in r
    ensures forall x :: x in r ==> exists j :: i <= j < |items| && items[j] == x && !Delivered(respond(j))
    decreases |items| - i
  {
    if i == |items| then []
    else (if Delivered(respond(i)) then [] else [items[i]]) + Failures(items, respond, i + 1)
  }

  /** The result of the item loop: the queue store afterwards and the bodies
      POSTed, in order. */
  datatype DrainResult = DrainResult(queue: Store.Store<EmailQueueItem>, sent: seq<Email>)

  /** The `for (const item of items)` loop from position `i`: POST the item,
      delete it by key when the answer is ok, otherwise leave it and go on. */
  function DrainFrom(q: Store.Store<EmailQueueItem>, items: seq<Store.Keyed<EmailQueueItem>>,
                     respond: nat -> SendOutcome, i: nat): (r: DrainResult)
    requires q.Valid() && i <= |items|
    decreases |items| - i
    ensures r.queue.Valid() && r.queue.next == q.next
    ensures |r.sent| == |items| - i
    ensures forall j :: i <= j < |items| ==> r.sent[j - i] == PayloadOf(items[j].value)
    ensures r.queue.records == q.records - DeliveredIds(items, respond, i)
  {
    if i == |items| then
      assert DeliveredIds(items, respond, i) == {};
      DrainResult(q, [])
    else
      var item := items[i];
      var q' := if Delivered(respond(i)) then Store.Delete(q, item.id) else q;
      var rest := DrainFrom(q', items, respond, i + 1);
      assert DeliveredIds(items, respond, i)
          == DeliveredIds(items, respond, i + 1) + (if Delivered(respond(i)) then {item.id} else {});
      DrainResult(rest.queue, [PayloadOf(item.value)] + rest.sent)
  }

  /** In a snapshot with distinct keys, an entry's key is among the delivered
      keys exactly when its own POST was answered ok. */
  lemma DeliveredIdsExact(items: seq<Store.Keyed<EmailQueueItem>>, respond: nat -> SendOutcome, j: nat)
    requires Store.Increasing(items) && j < |items|
    ensures items[j].id in DeliveredIds(items, respond, 0) <==> Delivered(respond(j))
  {
    if items[j].id in DeliveredIds(items, respond, 0) {
      var j' :| 0 <= j' < |items| && Delivered(respond(j')) && items[j'].id == items[j].id;
      Store.IncreasingDistinct(items, j, j');
    }
  }

  lemma {:induction false} WithoutDeliveredIsFailures(items: seq<Store.Keyed<EmailQueueItem>>,
                                                      respond: nat -> SendOutcome, i: nat)
    requires Store.Increasing(items) && i <= |items|
    ensures Store.Without(items[i..], DeliveredIds(items, respond, 0)) == Failures(items, respond, i)
    decreases |items| - i
  {
    if i < |items| {
      WithoutDeliveredIsFailures(items, respond, i + 1);
      DeliveredIdsExact(items, respond, i);
      assert items[i..][1..] == items[i + 1..];
    }
  }

  /** The drain over a full snapshot of the queue: afterwards the queue's
      snapshot is the original snapshot with exactly the delivered entries
      removed, the failures kept in their original order and unchanged;
      every entry was POSTed once, in order. */
  lemma {:induction false} DrainKeepsFailuresInOrder(q: Store.Store<EmailQueueItem>, respond: nat -> SendOutcome)
    requires q.Valid()
    ensures var items := Store.GetAll(q);
            var r := DrainFrom(q, items, respond, 0);
            && Store.GetAll(r.queue) == Failures(items, respond, 0)
            && (forall j :: 0 <= j < |items| ==> (items[j].id in r.queue.records <==> !Delivered(respond(j))))
  {
    var items := Store.GetAll(q);
    var r := DrainFrom(q, items, respond, 0);
    var gone := DeliveredIds(items, respond, 0);
    Store.ScanWithout(q.records, gone, 1, q.next);
    WithoutDeliveredIsFailures(items, respond, 0);
    assert items[0..] == items;
    forall j | 0 <= j < |items|
      ensures items[j].id in r.queue.records <==> !Delivered(respond(j))
    {
      DeliveredIdsExact(items, respond, j);
    }
  }

  /** What one `processQueue()` call did: the database afterwards, the
      snapshot it read (None: it read nothing) and the bodies it POSTed. */
  datatype DrainRun = DrainRun(db: Database, snapshot: Option<seq<Store.Keyed<EmailQueueItem>>>, sent: seq<Email>)

  /** `processQueue()`: nothing at all when offline; an open failure is
      caught and logged; a failing `getAll` request has no error handler, so
      nothing happens; an empty snapshot is a no-op; otherwise the snapshot is
      drained. */
  function ProcessQueue(db: Database, online: bool, available: bool, readOk: bool,
                        respond: nat -> SendOutcome): (r: DrainRun)
    requires Valid(db)
    ensures Valid(r.db)
    ensures !online ==> r == DrainRun(db, None, [])
    ensures online && Open(db, available).Failure? ==> r == DrainRun(db, None, [])
    ensures r.snapshot.Some? <==> online && Open(db, available).Success? && readOk
    ensures r.snapshot.Some? ==>
      var before := Open(db, available).value;
      && r.snapshot.value == Store.GetAll(before.queue.value)
      && r.db.inspections == before.inspections && r.db.version == before.version
      && r.db.queue.Some?
    ensures r.snapshot.Some? && r.snapshot.value == [] ==> r.sent == [] && r.db == Open(db, available).value
    ensures r.snapshot.None? ==> r.sent == []
    ensures online && Open(db, available).Success? && !readOk ==>
      r == DrainRun(Open(db, available).value, None, [])
  {
    if !online then DrainRun(db, None, [])
    else
      match Open(db, available)
      case Failure(_) => DrainRun(db, None, [])
      case Success(handle) =>
        if !readOk then DrainRun(handle, None, [])
        else
          var items := Store.GetAll(handle.queue.value);
          if |items| == 0 then DrainRun(handle, Some(items), [])
          else
            var d := DrainFrom(handle.queue.value, items, respond, 0);
            DrainRun(handle.(queue := Some(d.queue)), Some(items), d.sent)
  }

  /** An online `processQueue()` that read its snapshot is `DrainFrom` over
      that snapshot of the opened queue. */
  lemma ProcessQueueIsDrain(db: Database, available: bool, readOk: bool, respond: nat -> SendOutcome)
    requires Valid(db)
    ensures var r := ProcessQueue(db, true, available, readOk, respond);
      r.snapshot.Some? ==>
        var q := Open(db, available).value.queue.value;
        var d := DrainFrom(q, Store.GetAll(q), respond, 0);
        r.snapshot.value == Store.GetAll(q) && r.db.queue == Some(d.queue) && r.sent == d.sent
  {
    var r := ProcessQueue(db, true, available, readOk, respond);
    if r.snapshot.Some? {
      var q := Open(db, available).value.queue.value;
      if |Store.GetAll(q)| == 0 {
        assert DrainFrom(q, Store.GetAll(q), respond, 0) == DrainResult(q, []);
      }
    }
  }

  /** One drain, end to end, as seen by the endpoint: one POST per snapshot
      entry carrying that entry's fields, in snapshot order. */
  lemma {:induction false} ProcessQueueSendsEach(db: Database, available: bool, readOk: bool,
                                                 respond: nat -> SendOutcome)
    requires Valid(db)
    ensures var r := ProcessQueue(db, true, available, readOk, respond);
      r.snapshot.Some? ==>
        && |r.sent| == |r.snapshot.value|
        && forall j :: 0 <= j < |r.sent| ==> r.sent[j] == PayloadOf(r.snapshot.value[j].value)
  {
    ProcessQueueIsDrain(db, available, readOk, respond);
  }

  /** One drain, end to end, as seen by the store: afterwards the queue holds
      exactly the entries whose POST was not answered ok, unchanged and in
      their original order; delivered entries are gone. */
  lemma {:induction false} ProcessQueueOutcome(db: Database, available: bool, readOk: bool,
                                               respond: nat -> SendOutcome)
    requires Valid(db)
    ensures var r := ProcessQueue(db, true, available, readOk, respond);
      r.snapshot.Some? ==>
        && Store.GetAll(r.db.queue.value) == Failures(r.snapshot.value, respond, 0)
        && forall j :: 0 <= j < |r.snapshot.value| ==>
             (r.snapshot.value[j].id in r.db.queue.value.records <==> !Delivered(respond(j)))
  {
    ProcessQueueIsDrain(db, available, readOk, respond);
    if available && db.version <= DbVersion && readOk {
      DrainKeepsFailuresInOrder(Open(db, available).value.queue.value, respond);
    }
  }

  /** Isolation: a record that is in the queue when the drain reads it stays,
      with its content unchanged, unless its own POST was answered ok; a
      failure never causes another item to be kept or removed. */
  lemma {:induction false} FailedItemSurvives(db: Database, available: bool, readOk: bool,
                                              respond: nat -> SendOutcome, j: nat)
    requires Valid(db)
    requires var r := ProcessQueue(db, true, available, readOk, respond);
             r.snapshot.Some? && j < |r.snapshot.value|
    ensures var r := ProcessQueue(db, true, available, readOk, respond);
            var e := r.snapshot.value[j];
            && (e.id in r.db.queue.value.records <==> !Delivered(respond(j)))
            && (e.id in r.db.queue.value.records ==> r.db.queue.value.records[e.id] == e.value)
  {
    ProcessQueueOutcome(db, available, readOk, respond);
    var r := ProcessQueue(db, true, available, readOk, respond);
    var e := r.snapshot.value[j];
    var before := Open(db, available).value.queue.value;
    assert e.value == before.records[e.id];
    if |r.snapshot.value| > 0 {
      var d := DrainFrom(before, r.snapshot.value, respond, 0);
      assert r.db.queue.value == d.queue;
    }
  }
}
