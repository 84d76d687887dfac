/** The app's local database (services/db.ts): database `FiscalInspectorDB`
    at schema version 2 with two auto-increment object stores, `inspections`
    (the archive of completed inspections) and `email_queue` (the offline
    outbox). Platform faults are passed in as booleans. */
module Db {
  import opened Wrappers
  import opened Types
  import Store

  const DbVersion: nat := 2

  /** One e-mail attachment: a file name and base64 content. */
  datatype Attachment = Attachment(filename: string, content: string)

  /** One pending outbound e-mail. One recipient string; attachments are
      optional; `createdAt` is the enqueue time in milliseconds. The `id` is
      the store key and lives in `Store.Keyed`. */
  datatype EmailQueueItem = EmailQueueItem(
    to: string,
    subject: string,
    html: string,
    attachments: Option<seq<Attachment>>,
    createdAt: int)

  /** A completed inspection: its data, the ISO completion time and the
      numeric timestamp used for sorting. */
  datatype InspectionRecord = InspectionRecord(data: InspectionData, completedAt: string, timestamp: int)

  /** The persisted database: its schema version and the object stores that
      exist (None: not created yet). Version 0 is a database never opened. */
  datatype Database = Database(
    version: nat,
    inspections: Option<Store.Store<InspectionRecord>>,
    queue: Option<Store.Store<EmailQueueItem>>)

  datatype StoreError = StorageUnavailable | VersionError | WriteFailed | ReadFailed

  /** The database after an operation together with the operation's outcome:
      the upgrade done while opening persists even when the later request
      fails. */
  datatype Stored<T> = Stored(db: Database, result: Result<T, StoreError>)

  /** The database on a device that never opened it. */
  const Fresh: Database := Database(0, None, None)

  /** Existing stores are well-formed; a database at the current version was
      upgraded by this code and so has both stores. */
  predicate Valid(db: Database) {
    && (db.inspections.Some? ==> db.inspections.value.Valid())
    && (db.queue.Some? ==> db.queue.value.Valid())
    && (db.version == DbVersion ==> db.inspections.Some? && db.queue.Some?)
  }

  /** A handle `openDB` can resolve with: current version, both stores. */
  predicate Ready(db: Database) {
    Valid(db) && db.version == DbVersion && db.inspections.Some? && db.queue.Some?
  }

  /** The `onupgradeneeded` handler: create each store only if it is missing. */
  function Upgrade(db: Database): (r: Database)
    requires Valid(db)
    ensures Ready(r)
    ensures db.inspections.Some? ==> r.inspections == db.inspections
    ensures db.queue.Some? ==> r.queue == db.queue
    ensures db.inspections.None? ==> r.inspections == Some(Store.Empty())
    ensures db.queue.None? ==> r.queue == Some(Store.Empty())
  {
    var inspections := if db.inspections.None? then Some(Store.Empty()) else db.inspections;
    var queue := if db.queue.None? then Some(Store.Empty()) else db.queue;
    Database(DbVersion, inspections, queue)
  }

  /** `openDB()`: fails when the platform storage is unavailable, or (as
      IndexedDB does) when the stored version is newer than 2; runs the
      upgrade when the stored version is older; otherwise opens as is. */
  function Open(db: Database, available: bool): (r: Result<Database, StoreError>)
    requires Valid(db)
    ensures r.Success? <==> available && db.version <= DbVersion
    ensures r.Success? ==> Ready(r.value)
    ensures r.Success? && db.inspections.Some? ==> r.value.inspections == db.inspections
    ensures r.Success? && db.queue.Some? ==> r.value.queue == db.queue
    ensures r.Success? && db.inspections.None? ==> r.value.inspections == Some(Store.Empty())
    ensures r.Success? && db.queue.None? ==> r.value.queue == Some(Store.Empty())
    ensures !available ==> r == Failure(StorageUnavailable)
  {
    if !available then Failure(StorageUnavailable)
    else if db.version > DbVersion then Failure(VersionError)
    else if db.version < DbVersion then Success(Upgrade(db))
    else Success(db)
  }

  /** The first open on a device creates both stores, empty. */
  lemma FirstOpenCreatesEmptyStores()
    ensures Open(Fresh, true) == Success(Database(DbVersion, Some(Store.Empty()), Some(Store.Empty())))
  {
  }

  /** Opening an opened database changes nothing: repeated opens are
      idempotent. */
  lemma OpenIdempotent(db: Database)
    requires Valid(db)
    ensures Open(db, true).Success? ==> Open(Open(db, true).value, true) == Open(db, true)
  {
  }

  // ----- saveInspectionToDb -----

  /** `saveInspectionToDb(data)` with `completedAt` (ISO time) and `now`
      (milliseconds) supplied: adds exactly one record holding the data and
      both times under a fresh key, and touches nothing else. An open or
      write failure is returned to the caller. */
  function SaveInspection(db: Database, data: InspectionData, completedAt: string, now: int,
                          available: bool, writeOk: bool): (r: Stored<nat>)
    requires Valid(db)
    ensures Valid(r.db)
    ensures r.result.Success? <==> available && db.version <= DbVersion && writeOk
    ensures Open(db, available).Failure? ==> r == Stored(db, Failure(Open(db, available).error))
    ensures Open(db, available).Success? && !writeOk ==>
      r == Stored(Open(db, available).value, Failure(WriteFailed))
    ensures r.result.Success? ==>
      var before := Open(db, available).value;
      var key := r.result.value;
      && r.db.queue == before.queue && r.db.version == before.version
      && r.db.inspections.Some?
      && key !in before.inspections.value.records
      && r.db.inspections.value.records
         == before.inspections.value.records[key := InspectionRecord(data, completedAt, now)]
  {
    match Open(db, available)
    case Failure(e) => Stored(db, Failure(e))
    case Success(handle) =>
      if !writeOk then Stored(handle, Failure(WriteFailed))
      else
        var (s, key) := Store.Add(handle.inspections.value, InspectionRecord(data, completedAt, now));
        Stored(handle.(inspections := Some(s)), Success(key))
  }

  // ----- getAllInspections -----

  /** Timestamps never increase along the sequence. */
  predicate NewestFirst(s: seq<Store.Keyed<InspectionRecord>>) {
    forall i, j :: 0 <= i < j < |s| ==> s[i].value.timestamp >= s[j].value.timestamp
  }

  /** Insert `x` in front of the first entry that is not newer than it. */
  function InsertNewest(x: Store.Keyed<InspectionRecord>, s: seq<Store.Keyed<InspectionRecord>>)
    : (r: seq<Store.Keyed<InspectionRecord>>)
    requires NewestFirst(s)
    ensures NewestFirst(r)
    ensures multiset(r) == multiset(s) + multiset{x}
    ensures |r| > 0 && (r[0] == x || (|s| > 0 && r[0] == s[0]))
  {
    if |s| == 0 || s[0].value.timestamp <= x.value.timestamp then
      var r := [x] + s;
      assert r[1..] == s;
      r
    else
      var rest := InsertNewest(x, s[1..]);
      assert s == [s[0]] + s[1..];
      [s[0]] + rest
  }

  /** `results.sort((a, b) => b.timestamp - a.timestamp)`: newest first, a
      permutation of the input. */
  function SortNewestFirst(s: seq<Store.Keyed<InspectionRecord>>): (r: seq<Store.Keyed<InspectionRecord>>)
    ensures NewestFirst(r)
    ensures multiset(r) == multiset(s)
  {
    if |s| == 0 then []
    else
      assert s == [s[0]] + s[1..];
      InsertNewest(s[0], SortNewestFirst(s[1..]))
  }

  /** `getAllInspections()`: the archive's records newest first. A failure to
      open the database is caught and yields the empty list; a failing
      `getAll` request rejects the returned promise, which the surrounding
      `try` does not catch, so it reaches the caller. */
  function GetAllInspections(db: Database, available: bool, readOk: bool)
    : (r: Stored<seq<Store.Keyed<InspectionRecord>>>)
    requires Valid(db)
    ensures Valid(r.db)
    ensures Open(db, available).Failure? ==> r == Stored(db, Success([]))
    ensures Open(db, available).Success? && !readOk ==> r.result == Failure(ReadFailed)
    ensures Open(db, available).Success? && readOk ==>
      var archive := Open(db, available).value.inspections.value;
      && r.result.Success?
      && NewestFirst(r.result.value)
      && multiset(r.result.value) == multiset(Store.GetAll(archive))
    ensures Open(db, available).Success? ==> r.db == Open(db, available).value
  {
    match Open(db, available)
    case Failure(_) => Stored(db, Success([]))
    case Success(handle) =>
      if !readOk then Stored(handle, Failure(ReadFailed))
      else Stored(handle, Success(SortNewestFirst(Store.GetAll(handle.inspections.value))))
  }

  /** Every archived record appears in the listing, and nothing else does. */
  lemma {:induction false} ListingHasEveryRecord(db: Database, key: nat)
    requires Ready(db)
    ensures var r := GetAllInspections(db, true, true).result.value;
            key in db.inspections.value.records <==>
              exists j :: 0 <= j < |r| && r[j].id == key
  {
    var snapshot := Store.GetAll(db.inspections.value);
    var r := GetAllInspections(db, true, true).result.value;
    assert multiset(r) == multiset(snapshot);
    if key in db.inspections.value.records {
      assert key in Store.Ids(snapshot);
      var j :| 0 <= j < |snapshot| && snapshot[j].id == key;
      assert snapshot[j] in multiset(r);
      var i :| 0 <= i < |r| && r[i] == snapshot[j];
    }
    if exists j :: 0 <= j < |r| && r[j].id == key {
      var j :| 0 <= j < |r| && r[j].id == key;
      assert r[j] in multiset(snapshot);
      var i :| 0 <= i < |snapshot| && snapshot[i] == r[j];
      assert key in Store.Ids(snapshot);
    }
  }
}
