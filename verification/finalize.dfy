/** The finalize screen (components/FinalizeScreen.tsx): finishing an
    inspection (signature check, data merge, PDF, local archive, cloud row)
    and sending the report by e-mail, routed to the outbox when offline and
    POSTed directly when online. Time strings, the transliterated client
    name, the rendered e-mail texts and the PDF's base64 content are inputs. */
module Finalize {
  import opened Wrappers
  import opened Types
  import Text
  import Store
  import opened Db
  import Sync
  import Pdf

  const SignatureRequired: string := "Podpis serwisanta jest wymagany!"
  const FinishFailed: string := "Wystąpił błąd podczas zapisywania danych lub generowania PDF."
  const QueuedNotice: string :=
    "Brak sieci. Mail do klienta dodany do kolejki i zostanie wysłany automatycznie po odzyskaniu zasięgu."
  const QueueFailed: string := "Błąd podczas dodawania do kolejki."
  const SendFailed: string := "Wystąpił problem z wysyłką maila."

  /** The generated report: its file name (the blob itself is not modelled). */
  datatype PdfFile = PdfFile(fileName: string)

  /** The row inserted into the cloud `inspections` table. */
  datatype CloudRow = CloudRow(
    clientName: string, clientEmail: string, inspectionDate: string,
    nextInspectionDate: string, location: string, reminderSent: bool)

  /** `handleSignature(signature)`: hands App the data with only the
      serviceman signature replaced. */
  function HandleSignature(data: InspectionData, signature: Option<string>): (r: InspectionData)
    ensures r.servicemanSignature == signature
    ensures r.(servicemanSignature := data.servicemanSignature) == data
  {
    data.(servicemanSignature := signature)
  }

  /** `{ ...data, clientEmail: email, location }`. */
  function FinalizedData(data: InspectionData, email: string, location: string): (r: InspectionData)
    ensures r.clientEmail == email && r.location == Some(location)
    ensures r.(clientEmail := data.clientEmail, location := data.location) == data
  {
    data.(clientEmail := email, location := Some(location))
  }

  /** What `handleFinish` did: the data App holds afterwards, the report
      (if generated), the local database, the cloud row (if an insert was
      attempted) and whether it succeeded, whether the screen switched to
      the submitted state, and the alert shown. */
  datatype FinishResult = FinishResult(
    data: InspectionData, pdf: Option<PdfFile>, db: Database,
    cloudInsert: Option<CloudRow>, cloudSaved: bool, submitted: bool, alert: Option<string>)

  /** `handleFinish()`. Without a (truthy) serviceman signature only the
      alert happens. Otherwise the merged data is handed to App and the
      report is generated; when generation fails (`pdfOk` false) the error
      alert is shown and nothing is stored. Then the record is archived
      locally (a failure there shows the same alert and stops), and the cloud
      insert is attempted only when online; its failure is logged and does
      not stop finalization. */
  function HandleFinish(data: InspectionData, email: string, location: string, online: bool,
                        date: Pdf.CalendarDate, normalize: string -> string, pdfOk: bool,
                        nowIso: string, nextInspectionIso: string, now: int,
                        db: Database, available: bool, writeOk: bool, cloudOk: bool): (r: FinishResult)
    requires Valid(db)
    ensures Valid(r.db)
    ensures !Truthy(data.servicemanSignature) ==>
      r == FinishResult(data, None, db, None, false, false, Some(SignatureRequired))
    ensures Truthy(data.servicemanSignature) ==> r.data == FinalizedData(data, email, location)
    ensures Truthy(data.servicemanSignature) && !pdfOk ==>
      r == FinishResult(FinalizedData(data, email, location), None, db, None, false, false, Some(FinishFailed))
    ensures Truthy(data.servicemanSignature) && pdfOk ==>
      && r.pdf == Some(PdfFile(Pdf.FileName(normalize(data.clientName), date)))
      && r.db == SaveInspection(db, r.data, nowIso, now, available, writeOk).db
    ensures r.submitted <==>
      Truthy(data.servicemanSignature) && pdfOk && available && db.version <= DbVersion && writeOk
    ensures !r.submitted ==> r.alert.Some?
    ensures Truthy(data.servicemanSignature) && pdfOk && !r.submitted ==>
      r.alert == Some(FinishFailed) && r.pdf.Some?
    ensures r.submitted ==> r.alert.None? && (r.cloudInsert.Some? <==> online)
    ensures r.cloudInsert.Some? ==>
      r.cloudInsert.value == CloudRow(data.clientName, email, nowIso, nextInspectionIso, location, false)
    ensures r.cloudSaved ==> r.cloudInsert.Some? && cloudOk
    ensures r.submitted && online && cloudOk ==> r.cloudSaved
    ensures !r.submitted ==> r.cloudInsert.None?
  {
    if !Truthy(data.servicemanSignature) then
      FinishResult(data, None, db, None, false, false, Some(SignatureRequired))
    else
      var current := FinalizedData(data, email, location);
      if !pdfOk then FinishResult(current, None, db, None, false, false, Some(FinishFailed))
      else
        var pdf := PdfFile(Pdf.FileName(normalize(current.clientName), date));
        var saved := SaveInspection(db, current, nowIso, now, available, writeOk);
        if saved.result.Failure? then
          FinishResult(current, Some(pdf), saved.db, None, false, false, Some(FinishFailed))
        else
          var row := if online
            then Some(CloudRow(current.clientName, current.clientEmail, nowIso, nextInspectionIso,
                               location, false))
            else None;
          FinishResult(current, Some(pdf), saved.db, row, online && cloudOk, true, None)
  }

  /** The cloud insert's outcome changes nothing but its own flag. */
  lemma CloudFailureDoesNotStopFinish(data: InspectionData, email: string, location: string,
                                      online: bool, date: Pdf.CalendarDate, normalize: string -> string, pdfOk: bool,
                                      nowIso: string, nextInspectionIso: string, now: int,
                                      db: Database, available: bool, writeOk: bool)
    requires Valid(db)
    ensures
      var ok := HandleFinish(data, email, location, online, date, normalize, pdfOk, nowIso,
                             nextInspectionIso, now, db, available, writeOk, true);
      var failed := HandleFinish(data, email, location, online, date, normalize, pdfOk, nowIso,
                                 nextInspectionIso, now, db, available, writeOk, false);
      ok.(cloudSaved := false) == failed && !failed.cloudSaved
  {
  }

  // ----- handleSendEmail -----

  /** The base64 alphabet: what `FileReader.readAsDataURL` puts after the
      comma. */
  predicate IsBase64(s: string) {
    forall i :: 0 <= i < |s| ==>
      ('A' <= s[i] <= 'Z') || ('a' <= s[i] <= 'z') || ('0' <= s[i] <= '9')
      || s[i] == '+' || s[i] == '/' || s[i] == '='
  }

  const PdfDataUrlPrefix: string := "data:application/pdf;base64"

  /** The data URL the file reader produces for the report blob. */
  function DataUrl(b64: string): string {
    PdfDataUrlPrefix + "," + b64
  }

  /** `base64data.split(',')[1]`: the second comma-separated field. */
  function AttachmentContent(dataUrl: string): (r: Option<string>)
    ensures r.Some? <==> !Text.Lacks(dataUrl, ',')
    ensures r.Some? ==> Text.Lacks(r.value, ',')
  {
    var fields := Text.Split(dataUrl, ',');
    if |fields| > 1 then Some(fields[1]) else None
  }

  /** Splitting at the comma recovers exactly the base64 content. */
  lemma DataUrlContentRoundTrip(b64: string)
    requires IsBase64(b64)
    ensures AttachmentContent(DataUrl(b64)) == Some(b64)
  {
    assert Text.Lacks(PdfDataUrlPrefix, ',');
    assert DataUrl(b64) == PdfDataUrlPrefix + [','] + b64;
    Text.SplitAfterField(PdfDataUrlPrefix, ',', b64);
    Text.SplitWithoutSeparator(b64, ',');
  }

  /** The client e-mail for the report: one recipient, the rendered subject
      and body, and the report as the single attachment. */
  function ReportEmail(email: string, subject: string, html: string, pdf: PdfFile, b64: string): (r: Sync.Email)
    requires IsBase64(b64)
    ensures r.to == email && r.subject == subject && r.html == html
    ensures r.attachments == Some([Attachment(pdf.fileName, b64)])
  {
    DataUrlContentRoundTrip(b64);
    Sync.Email(email, subject, html, Some([Attachment(pdf.fileName, AttachmentContent(DataUrl(b64)).value)]))
  }

  /** Where the e-mail went: nowhere, into the outbox (with the store's
      outcome), or POSTed directly (with the endpoint's answer). */
  datatype Route =
    | Skipped
    | Queued(email: Sync.Email, stored: Result<nat, StoreError>)
    | Posted(email: Sync.Email, outcome: Sync.SendOutcome)

  /** What the user sees afterwards: the alert, the busy flag and the
      success dialog. */
  datatype Feedback = Feedback(alert: Option<string>, generating: bool, successModal: bool)

  datatype SendResult = SendResult(route: Route, db: Database, feedback: Feedback)

  /** The routing shared by the code as written and the corrected version:
      no report or an empty address does nothing; offline, exactly one item
      goes to the outbox and nothing is POSTed; online, the same e-mail is
      POSTed and nothing is queued, whatever the answer. */
  function RouteSend(pdf: Option<PdfFile>, email: string, online: bool, subject: string, html: string,
                 b64: string, db: Database, now: int, available: bool, writeOk: bool,
                 post: Sync.SendOutcome): (r: (Route, Database))
    requires Valid(db) && IsBase64(b64)
    ensures Valid(r.1)
    ensures pdf.None? || email == "" ==> r == (Skipped, db)
    ensures pdf.Some? && email != "" && !online ==>
      var e := ReportEmail(email, subject, html, pdf.value, b64);
      var q := Sync.AddToQueue(db, e, now, available, writeOk);
      r == (Queued(e, q.result), q.db)
    ensures pdf.Some? && email != "" && online ==>
      r == (Posted(ReportEmail(email, subject, html, pdf.value, b64), post), db)
  {
    if pdf.None? || email == "" then (Skipped, db)
    else
      var e := ReportEmail(email, subject, html, pdf.value, b64);
      if !online then
        var q := Sync.AddToQueue(db, e, now, available, writeOk);
        (Queued(e, q.result), q.db)
      else (Posted(e, post), db)
  }

  /** `handleSendEmail()` as written. In the offline branch the `await
      addToQueue(...)` runs inside the reader's `onloadend` callback, outside
      the `try` that holds the queue-error alert, so a failed enqueue shows
      nothing and leaves the busy flag set. */
  function HandleSendEmailAsWritten(pdf: Option<PdfFile>, email: string, online: bool, subject: string,
                                    html: string, b64: string, db: Database, now: int,
                                    available: bool, writeOk: bool, post: Sync.SendOutcome,
                                    generating: bool): (r: SendResult)
    requires Valid(db) && IsBase64(b64)
    ensures r.route == RouteSend(pdf, email, online, subject, html, b64, db, now, available, writeOk, post).0
    ensures r.route.Queued? && r.route.stored.Failure? ==> r.feedback == Feedback(None, true, false)
  {
    var (route, db') := RouteSend(pdf, email, online, subject, html, b64, db, now, available, writeOk, post);
    match route
    case Skipped => SendResult(route, db', Feedback(None, generating, false))
    case Queued(_, stored) =>
      if stored.Success? then SendResult(route, db', Feedback(Some(QueuedNotice), false, false))
      else SendResult(route, db', Feedback(None, true, false))
    case Posted(_, outcome) =>
      if Sync.Delivered(outcome) then SendResult(route, db', Feedback(None, false, true))
      else SendResult(route, db', Feedback(Some(SendFailed), false, false))
  }

  /** The discrepancy: offline, with storage unavailable, the user is told
      nothing although the e-mail was not queued. */
  lemma QueueFailureIsSilentAsWritten(db: Database, b64: string)
    requires Valid(db) && IsBase64(b64)
    ensures var r := HandleSendEmailAsWritten(Some(PdfFile("Protokol_X_01.01.2025.pdf")), "a@b.com",
                                              false, "S", "<p>x</p>", b64, db, 0, false, true,
                                              Sync.Threw, false);
            r.route.Queued? && r.route.stored.Failure? && r.feedback.alert.None? && r.feedback.generating
  {
  }

  /** `handleSendEmail()` with the evident intent: every outcome ends the
      busy state, and a failed enqueue shows the queue-error alert. */
  function HandleSendEmail(pdf: Option<PdfFile>, email: string, online: bool, subject: string,
                           html: string, b64: string, db: Database, now: int,
                           available: bool, writeOk: bool, post: Sync.SendOutcome,
                           generating: bool): (r: SendResult)
    requires Valid(db) && IsBase64(b64)
    ensures Valid(r.db)
    ensures r.route == RouteSend(pdf, email, online, subject, html, b64, db, now, available, writeOk, post).0
    ensures r.route.Skipped? ==> r.db == db && r.feedback == Feedback(None, generating, false)
    ensures !r.route.Skipped? ==> !r.feedback.generating
    ensures r.route.Queued? ==>
      (r.feedback.alert == Some(QueuedNotice) <==> r.route.stored.Success?)
      && (r.feedback.alert == Some(QueueFailed) <==> r.route.stored.Failure?)
    ensures r.route.Posted? ==>
      r.db == db && (r.feedback.successModal <==> Sync.Delivered(r.route.outcome))
      && (r.feedback.alert.Some? <==> !Sync.Delivered(r.route.outcome))
  {
    var (route, db') := RouteSend(pdf, email, online, subject, html, b64, db, now, available, writeOk, post);
    match route
    case Skipped => SendResult(route, db', Feedback(None, generating, false))
    case Queued(_, stored) =>
      if stored.Success? then SendResult(route, db', Feedback(Some(QueuedNotice), false, false))
      else SendResult(route, db', Feedback(Some(QueueFailed), false, false))
    case Posted(_, outcome) =>
      if Sync.Delivered(outcome) then SendResult(route, db', Feedback(None, false, true))
      else SendResult(route, db', Feedback(Some(SendFailed), false, false))
  }

  /** Offline, a successful send request leaves exactly one new outbox item
      whose later POST body is the report e-mail. */
  lemma {:induction false} OfflineSendQueuesReport(pdf: PdfFile, email: string, subject: string,
                                                   html: string, b64: string, db: Database, now: int)
    requires Ready(db) && IsBase64(b64) && email != ""
    ensures var r := HandleSendEmail(Some(pdf), email, false, subject, html, b64, db, now, true, true,
                                     Sync.Threw, true);
      && r.route.Queued? && r.route.stored.Success?
      && var key := r.route.stored.value;
         && key !in db.queue.value.records
         && r.db.queue.value.records == db.queue.value.records[key := Sync.Enqueued(r.route.email, now)]
         && Sync.PayloadOf(r.db.queue.value.records[key])
            == Sync.Email(email, subject, html, Some([Attachment(pdf.fileName, b64)]))
  {
    var e := ReportEmail(email, subject, html, pdf, b64);
    Sync.EnqueuedPayloadRoundTrip(e, now);
  }
}
