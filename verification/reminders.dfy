/** The daily reminder job (api/cron/send-reminders.ts): the server-side
    twin of the outbox drain. It selects the cloud inspections due in 14
    days whose reminder has not been sent, e-mails the office once per
    inspection, and sets `reminder_sent` only after a send without error.
    The target date string, the query outcome, the provider and the table
    update are inputs; `send(k)` and `update(k)` answer for the k-th
    selected inspection. */
module Reminders {

  /** A row of the cloud `inspections` table (the columns the job reads). */
  datatype Inspection = Inspection(
    id: int, clientName: string, clientEmail: string,
    nextInspectionDate: string, reminderSent: bool)

  /** What the provider's `emails.send` did: no error, an error, or threw. */
  datatype SendOutcome = Sent | SendError | SendThrew

  /** What the `reminder_sent` update did. */
  datatype UpdateOutcome = Updated | UpdateError | UpdateThrew

  datatype Status = Success | Failed | EmailSentButDbFailed | Errored

  datatype ItemResult = ItemResult(id: int, status: Status)

  /** The job's JSON responses. */
  datatype CronResponse = NoReminders | Processed(results: seq<ItemResult>) | QueryFailed

  function StatusCode(r: CronResponse): (code: int)
    ensures code == 500 <==> r.QueryFailed?
    ensures code == 200 <==> !r.QueryFailed?
  {
    if r.QueryFailed? then 500 else 200
  }

  const OfficeAddress: string := "jakub.tiuchty@takma.com.pl"
  const SubjectPrefix: string := "[TERMINARZ] Przypomnienie o przeglądzie: "

  /** The reminder e-mail for one inspection: to the office, naming the client. */
  datatype ReminderEmail = ReminderEmail(to: seq<string>, subject: string)

  function ReminderFor(row: Inspection): (r: ReminderEmail)
    ensures r.to == [OfficeAddress]
    ensures |r.subject| == |SubjectPrefix| + |row.clientName|
    ensures r.subject[..|SubjectPrefix|] == SubjectPrefix && r.subject[|SubjectPrefix|..] == row.clientName
  {
    ReminderEmail([OfficeAddress], SubjectPrefix + row.clientName)
  }

  /** The query's filter: due on the target date, reminder not yet sent. */
  predicate IsDue(row: Inspection, target: string) {
    row.nextInspectionDate == target && !row.reminderSent
  }

  /** `.eq('next_inspection_date', target).eq('reminder_sent', false)`, in
      table order. */
  function Due(table: seq<Inspection>, target: string): (r: seq<Inspection>)
    ensures forall x :: x in r <==> x in table && IsDue(x, target)
    ensures |table| == 1 ==> r == (if IsDue(table[0], target) then table else [])
  {
    if |table| == 0 then []
    else
      assert forall x :: x in table <==> x == table[0] || x in table[1..] by {
        assert table == [table[0]] + table[1..];
      }
      (if IsDue(table[0], target) then [table[0]] else []) + Due(table[1..], target)
  }

  /** Selection distributes over concatenation: the rows keep their table
      order. */
  lemma {:induction false} DueAppend(a: seq<Inspection>, b: seq<Inspection>, target: string)
    ensures Due(a + b, target) == Due(a, target) + Due(b, target)
    decreases |a|
  {
    if |a| == 0 {
      assert a + b == b;
    } else {
      assert (a + b)[0] == a[0];
      assert (a + b)[1..] == a[1..] + b;
      DueAppend(a[1..], b, target);
    }
  }

  /** The per-inspection classification: a send error is `failed`; a send
      without error then an update error is `email_sent_but_db_failed`; both
      fine is `success`; anything thrown is `error`, and an update is only
      attempted after a send without error. */
  function Classify(send: SendOutcome, update: UpdateOutcome): (s: Status)
    ensures s == Success <==> send == Sent && update == Updated
    ensures send == SendError ==> s == Failed
    ensures send == SendThrew ==> s == Errored
    ensures send == Sent && update == UpdateError ==> s == EmailSentButDbFailed
    ensures send == Sent && update == UpdateThrew ==> s == Errored
  {
    match send
    case SendThrew => Errored
    case SendError => Failed
    case Sent =>
      match update
      case Updated => Success
      case UpdateError => EmailSentButDbFailed
      case UpdateThrew => Errored
  }

  /** `.update({ reminder_sent: true }).eq('id', id)`. */
  function MarkSent(table: seq<Inspection>, id: int): (r: seq<Inspection>)
    ensures |r| == |table|
    ensures forall k :: 0 <= k < |r| ==>
      r[k] == (if table[k].id == id then table[k].(reminderSent := true) else table[k])
  {
    seq(|table|, k requires 0 <= k < |table| =>
      if table[k].id == id then table[k].(reminderSent := true) else table[k])
  }

  /** The keys of selected inspections from position `i` on that ended in
      `success`. */
  function SuccessIds(due: seq<Inspection>, send: nat -> SendOutcome, update: nat -> UpdateOutcome,
                      i: nat): set<int>
    requires i <= |due|
  {
    set j | i <= j < |due| && Classify(send(j), update(j)) == Success :: due[j].id
  }

  datatype LoopResult = LoopResult(table: seq<Inspection>, results: seq<ItemResult>, emails: seq<ReminderEmail>)

  /** The `for (const inspection of inspections)` loop from position `i`. */
  function ProcessFrom(table: seq<Inspection>, due: seq<Inspection>, send: nat -> SendOutcome,
                       update: nat -> UpdateOutcome, i: nat): (r: LoopResult)
    requires i <= |due|
    decreases |due| - i
    ensures |r.results| == |due| - i && |r.emails| == |due| - i
    ensures forall j :: i <= j < |due| ==>
      && r.results[j - i] == ItemResult(due[j].id, Classify(send(j), update(j)))
      && r.emails[j - i] == ReminderFor(due[j])
    ensures |r.table| == |table|
  {
    if i == |due| then LoopResult(table, [], [])
    else
      var row := due[i];
      var status := Classify(send(i), update(i));
      var table' := if status == Success then MarkSent(table, row.id) else table;
      var rest := ProcessFrom(table', due, send, update, i + 1);
      LoopResult(rest.table, [ItemResult(row.id, status)] + rest.results, [ReminderFor(row)] + rest.emails)
  }

  /** The loop's effect on the table: exactly the rows whose key ended in
      `success` get `reminder_sent = true`; nothing else changes. */
  lemma {:induction false} ProcessFromTable(table: seq<Inspection>, due: seq<Inspection>,
                                            send: nat -> SendOutcome, update: nat -> UpdateOutcome, i: nat)
    requires i <= |due|
    ensures var r := ProcessFrom(table, due, send, update, i);
      forall k :: 0 <= k < |table| ==>
        r.table[k] == table[k].(reminderSent := table[k].reminderSent
                                               || table[k].id in SuccessIds(due, send, update, i))
    decreases |due| - i
  {
    var r := ProcessFrom(table, due, send, update, i);
    if i == |due| {
      assert SuccessIds(due, send, update, i) == {};
      forall k | 0 <= k < |table|
        ensures r.table[k] == table[k].(reminderSent := table[k].reminderSent
                                                      || table[k].id in SuccessIds(due, send, update, i))
      {
      }
    } else {
      var row := due[i];
      var success := Classify(send(i), update(i)) == Success;
      var table' := if success then MarkSent(table, row.id) else table;
      ProcessFromTable(table', due, send, update, i + 1);
      var later := SuccessIds(due, send, update, i + 1);
      assert SuccessIds(due, send, update, i) == later + (if success then {row.id} else {});
      assert r.table == ProcessFrom(table', due, send, update, i + 1).table;
      forall k | 0 <= k < |table|
        ensures r.table[k] == table[k].(reminderSent := table[k].reminderSent
                                                      || table[k].id in SuccessIds(due, send, update, i))
      {
        assert r.table[k] == table'[k].(reminderSent := table'[k].reminderSent || table'[k].id in later);
      }
    }
  }

  datatype CronRun = CronRun(table: seq<Inspection>, response: CronResponse, emails: seq<ReminderEmail>)

  /** `GET()`: a query error answers 500 and changes nothing; no due
      inspection answers 200 "No reminders" and sends nothing; otherwise one
      result per due inspection, in query order, one failure never stopping
      the rest. */
  function Cron(table: seq<Inspection>, target: string, queryOk: bool,
                send: nat -> SendOutcome, update: nat -> UpdateOutcome): (r: CronRun)
    ensures !queryOk ==> r == CronRun(table, QueryFailed, []) && StatusCode(r.response) == 500
    ensures queryOk && Due(table, target) == [] ==> r == CronRun(table, NoReminders, [])
    ensures queryOk && Due(table, target) != [] ==>
      var due := Due(table, target);
      && r.response.Processed? && StatusCode(r.response) == 200
      && |r.response.results| == |due| && |r.emails| == |due|
      && (forall j :: 0 <= j < |due| ==>
            && r.response.results[j] == ItemResult(due[j].id, Classify(send(j), update(j)))
            && r.emails[j] == ReminderFor(due[j]))
  {
    if !queryOk then CronRun(table, QueryFailed, [])
    else
      var due := Due(table, target);
      if |due| == 0 then CronRun(table, NoReminders, [])
      else
        var loop := ProcessFrom(table, due, send, update, 0);
        CronRun(loop.table, Processed(loop.results), loop.emails)
  }

  /** Row keys are unique (the table's primary key). */
  predicate UniqueIds(table: seq<Inspection>) {
    forall a, b :: 0 <= a < b < |table| ==> table[a].id != table[b].id
  }

  /** The selected inspections that did not end in `success`, in order. */
  function Unfinished(due: seq<Inspection>, send: nat -> SendOutcome, update: nat -> UpdateOutcome,
                      i: nat): seq<Inspection>
    requires i <= |due|
    decreases |due| - i
  {
    if i == |due| then []
    else (if Classify(send(i), update(i)) == Success then [] else [due[i]]) + Unfinished(due, send, update, i + 1)
  }

  /** `reminder_sent` is set exactly for the inspections whose e-mail went
      out and whose update went through; every other column and row is
      unchanged. */
  lemma {:induction false} FlagSetOnlyAfterSuccess(table: seq<Inspection>, target: string,
                                                   send: nat -> SendOutcome, update: nat -> UpdateOutcome)
    requires UniqueIds(table)
    ensures var due := Due(table, target);
            var r := Cron(table, target, true, send, update);
            && |r.table| == |table|
            && forall k :: 0 <= k < |table| ==>
                 && r.table[k].(reminderSent := table[k].reminderSent) == table[k]
                 && (r.table[k].reminderSent <==>
                       table[k].reminderSent
                       || exists j :: 0 <= j < |due| && due[j] == table[k]
                                      && Classify(send(j), update(j)) == Success)
  {
    var due := Due(table, target);
    var r := Cron(table, target, true, send, update);
    if |due| > 0 {
      ProcessFromTable(table, due, send, update, 0);
      forall k | 0 <= k < |table|
        ensures r.table[k].reminderSent <==>
                  table[k].reminderSent
                  || exists j :: 0 <= j < |due| && due[j] == table[k] && Classify(send(j), update(j)) == Success
      {
        if table[k].id in SuccessIds(due, send, update, 0) && !table[k].reminderSent {
          var j :| 0 <= j < |due| && Classify(send(j), update(j)) == Success && due[j].id == table[k].id;
          assert due[j] in table;
          var k' :| 0 <= k' < |table| && table[k'] == due[j];
          assert k' == k;
        }
      }
    }
  }

  /** Running the job again on the same day selects exactly the inspections
      whose previous attempt did not end in `success`: a delivered reminder
      is never sent twice, and failures are retried. */
  lemma {:induction false} RerunRetriesOnlyUnfinished(table: seq<Inspection>, target: string,
                                                      send: nat -> SendOutcome, update: nat -> UpdateOutcome)
    requires UniqueIds(table)
    ensures Due(Cron(table, target, true, send, update).table, target)
         == Unfinished(Due(table, target), send, update, 0)
  {
    var due := Due(table, target);
    var after := Cron(table, target, true, send, update).table;
    FlagSetOnlyAfterSuccess(table, target, send, update);
    if |due| == 0 {
      assert after == table;
    } else {
      RerunFrom(table, after, target, due, send, update, 0, 0);
    }
  }

  lemma {:induction false} RerunFrom(table: seq<Inspection>, after: seq<Inspection>, target: string,
                                     due: seq<Inspection>, send: nat -> SendOutcome,
                                     update: nat -> UpdateOutcome, k: nat, i: nat)
    requires UniqueIds(table) && due == Due(table, target) && |after| == |table|
    requires forall m :: 0 <= m < |table| ==>
      && after[m].(reminderSent := table[m].reminderSent) == table[m]
      && (after[m].reminderSent <==>
            table[m].reminderSent
            || exists j :: 0 <= j < |due| && due[j] == table[m] && Classify(send(j), update(j)) == Success)
    requires k <= |table| && i <= |due|
    requires Due(table[k..], target) == due[i..]
    ensures Due(after[k..], target) == Unfinished(due, send, update, i)
    decreases |table| - k
  {
    if k == |table| {
      assert due[i..] == [];
    } else {
      assert table[k..][0] == table[k] && table[k..][1..] == table[k + 1..];
      assert after[k..][0] == after[k] && after[k..][1..] == after[k + 1..];
      if IsDue(table[k], target) {
        assert due[i..][0] == table[k];
        assert due[i] == table[k];
        assert due[i..][1..] == due[i + 1..];
        var success := Classify(send(i), update(i)) == Success;
        assert after[k].reminderSent <==> success by {
          if after[k].reminderSent {
            var j :| 0 <= j < |due| && due[j] == table[k] && Classify(send(j), update(j)) == Success;
            DueIndexUnique(table, target, due, i, j);
          }
        }
        RerunFrom(table, after, target, due, send, update, k + 1, i + 1);
      } else {
        assert !IsDue(after[k], target);
        RerunFrom(table, after, target, due, send, update, k + 1, i);
      }
    }
  }

  /** In a table with unique keys a row is selected at most once. */
  lemma DueIndexUnique(table: seq<Inspection>, target: string, due: seq<Inspection>, i: nat, j: nat)
    requires UniqueIds(table) && due == Due(table, target) && i < |due| && j < |due| && due[i] == due[j]
    ensures i == j
  {
    DueDistinct(table, target);
  }

  lemma {:induction false} DueDistinct(table: seq<Inspection>, target: string)
    requires UniqueIds(table)
    ensures forall a, b :: 0 <= a < b < |Due(table, target)| ==> Due(table, target)[a] != Due(table, target)[b]
  {
    if |table| > 0 {
      assert UniqueIds(table[1..]);
      DueDistinct(table[1..], target);
      var rest := Due(table[1..], target);
      assert forall x :: x in rest ==> x in table[1..];
      forall m | 0 <= m < |table| - 1
        ensures table[1..][m] != table[0]
      {
        assert table[1..][m] == table[m + 1];
      }
      assert table[0] !in table[1..];
    }
  }
}
