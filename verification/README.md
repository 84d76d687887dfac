# Offline outbox of the fiscal-printer inspection app, in Dafny

This project models the core of a small web app that service technicians use to
inspect fiscal printers at a client's site. The technician:

1. enters the client (StartScreen);
2. scans the devices and marks each as working or faulty (ScanScreen);
3. signs, saves the protocol locally and generates a PDF report (FinalizeScreen);
4. e-mails the report to the client.

When the device is offline, the e-mail goes into an IndexedDB outbox. The
outbox is drained when the app mounts and whenever the browser comes back
online.

One Dafny module per source file:

| module | file | models |
|---|---|---|
| `Wrappers` | wrappers.dfy | `Option`, `Result` |
| `Types` | types.dfy | `types.ts` records; JavaScript truthiness of optional strings and flags |
| `Text` | text.dfy | what the code relies on from JavaScript strings: `trim`, `\s`, `replace(/\s+/g, '_')`, `split(',')`, `padStart(2, '0')`, number-to-string |
| `Store` | store.dfy | an IndexedDB object store with `keyPath: 'id', autoIncrement: true`: a map plus a key generator that starts at 1 and never reuses a key; `getAll` returns records in ascending key order |
| `Db` | db.dfy | `services/db.ts`: schema version 2, upgrade, saving and listing inspections |
| `Sync` | sync.dfy | `services/syncService.ts`: `addToQueue` and `processQueue` (the drain) |
| `SendEmail` | send_email.dfy | `api/send-email.ts`: the serverless e-mail endpoint |
| `App` | app.dfy | `App.tsx`: screen routing, shared inspection state, drain triggers |
| `Start`, `Scan`, `Finalize` | start.dfy, scan.dfy, finalize.dfy | the three workflow screens' handlers |
| `Pdf` | pdf.dfy | `services/pdfService.ts`: the date string, the device table and the file name |
| `Reminders` | reminders.dfy | `api/cron/send-reminders.ts`: the daily reminder job |

Everything the code takes from outside is a parameter:

- **Network answers.** `respond(k)` is the answer to the k-th POST of one drain. `post` and `provider` are the endpoint's and the e-mail provider's outcomes.
- **Storage answers.** `available`, `writeOk` and `readOk` say whether opening the database, a write request and a read request succeed.
- **Other inputs.** The clock (`now`), online status, the authenticated session, and the cron job's query results.

## Model

| member | source | states |
|---|---|---|
| Text.Trim | components/StartScreen.tsx:27 | the result has no leading or trailing ECMAScript white space; it is empty exactly when the input is all white space; it is never longer than the input |
| Text.TrimIsInfix | components/StartScreen.tsx:27 | the trimmed value is a contiguous piece of the input with only white space before and after it |
| Text.TrimIdempotent | components/ScanScreen.tsx:37 | trimming an already trimmed value changes nothing |
| Text.UnderscoreWhitespaceRuns | services/pdfService.ts:175 | the result has no white space and is never longer than the input |
| Text.UnderscoreRun | services/pdfService.ts:175 | one maximal white-space run between two non-blank parts becomes exactly one `_`, and each part is replaced on its own |
| Text.UnderscoreKeepsLetters | services/pdfService.ts:175 | replacing white-space runs by `_` keeps every other character, in order |
| Text.UnderscoreFixesWordString | services/pdfService.ts:175 | a name without white space is left as it is |
| Text.Split | components/FinalizeScreen.tsx:131 | `split` yields at least one piece, more than one exactly when the separator occurs, and no piece contains the separator |
| Text.SplitJoin | components/FinalizeScreen.tsx:131 | joining the pieces back with the separator gives the input |
| Text.SplitAfterField | components/FinalizeScreen.tsx:131 | splitting `a,b` on `,` when `a` has no comma yields `a` followed by the fields of `b` |
| Text.NatToString | services/pdfService.ts:70 | the decimal form of a number is a non-empty digit string, one digit long exactly below 10 |
| Text.NatToStringRoundTrip | services/pdfService.ts:70 | the decimal string of a number reads back as that number |
| Text.Pad2 | services/pdfService.ts:68-69 | `padStart(2,'0')` yields digits of the same value, exactly two of them below 100 |
| Store.Empty | services/db.ts:32 | a newly created store is well-formed and holds no records |
| Store.Add | services/db.ts:32 | an add stores the value under a key never used before and leaves every other record alone |
| Store.AddTwiceKeepsBoth | services/syncService.ts:14-18 | two adds of equal values keep two distinct records |
| Store.Delete | services/syncService.ts:56-57 | a delete removes exactly that key; deleting a missing key changes nothing |
| Store.DeleteIdempotent | services/syncService.ts:57 | deleting twice is the same as deleting once |
| Store.GetAll | services/syncService.ts:33 | `getAll` lists every record once, in ascending key order, with its stored value |
| Store.ScanWithout | services/syncService.ts:54-58 | listing after deleting some keys is the earlier listing with those records filtered out |
| Db.Upgrade | services/db.ts:27-38 | the upgrade creates only the stores that are missing and keeps the existing ones |
| Db.Open | services/db.ts:23-48 | opening fails without storage or above version 2; otherwise the result is at version 2 with both stores, existing stores are kept as they were, and a store created by the upgrade is empty |
| Db.FirstOpenCreatesEmptyStores | services/db.ts:23-38 | the first open on a device yields version 2 with both stores, empty |
| Db.OpenIdempotent | services/db.ts:27-38 | opening an opened database changes nothing |
| Db.SaveInspection | services/db.ts:50-72 | a successful save adds exactly one inspection record `{data, completedAt, timestamp}` under a fresh key and leaves the outbox alone; a failure is reported as an error, and after a write failure the database is the opened one, with nothing added |
| Db.SortNewestFirst | services/db.ts:84-87 | the listing is a permutation of its input, sorted by descending timestamp |
| Db.GetAllInspections | services/db.ts:74-95 | an open failure yields an empty list; a read failure is an error; otherwise every stored inspection, newest first |
| Db.ListingHasEveryRecord | services/db.ts:80-87 | every stored inspection appears in the listing |
| Sync.EnqueuedPayloadRoundTrip | services/syncService.ts:46-51 | the POST body rebuilt from a queued item is exactly the e-mail that was queued |
| Sync.PayloadDeterminesItem | services/syncService.ts:9-12 | a queued item is rebuilt exactly from its POST body and its enqueue time |
| Sync.AddToQueue | services/syncService.ts:3-23 | a successful enqueue adds exactly one item (the e-mail plus `createdAt = now`) under a fresh key; inspections are unchanged; a failure is propagated to the caller, and after a write failure the database is the opened one, with nothing added |
| Sync.NoDeduplication | services/syncService.ts:9-18 | queueing the same e-mail twice gives two outbox items |
| Sync.Delivered | services/syncService.ts:54 | `response.ok`: a POST counts as delivered exactly when it was answered with a status in the 2xx class; a rejected `fetch` never does |
| Sync.DrainFrom | services/syncService.ts:41-65 | one POST per snapshot item, in snapshot order; exactly the delivered items are deleted; the key generator is untouched |
| Sync.Failures | services/syncService.ts:54-64 | the entries not delivered are kept: every entry whose POST was not delivered is listed, and only such entries |
| Sync.DrainKeepsFailuresInOrder | services/syncService.ts:54-64 | after a drain the outbox lists exactly the failed items, in their original order; an item stays iff its POST was not answered with a 2xx status |
| Sync.ProcessQueue | services/syncService.ts:25-70 | offline or on an open failure nothing is sent; a read failure sends nothing and leaves the opened database as it is; an empty outbox is left alone; otherwise the snapshot is drained |
| Sync.ProcessQueueSendsEach | services/syncService.ts:41-52 | when online, each entry of the snapshot read at the start is POSTed once, in order, with its own fields |
| Sync.ProcessQueueOutcome | services/syncService.ts:33-65 | when online, the outbox afterwards lists exactly the snapshot entries whose POST was not delivered, in order; an entry survives iff it was not delivered |
| Sync.FailedItemSurvives | services/syncService.ts:59-64 | an item whose POST threw or got a non-2xx status is still in the outbox, unchanged, for the next drain |
| SendEmail.Handler | api/send-email.ts:5-45 | every response carries the four CORS headers; OPTIONS gives 200 without calling the provider; other non-POST verbs give 405; POST calls the provider once and answers 200, 400 or 500 |
| SendEmail.DeliveredIffAccepted | api/send-email.ts:35-40 | a POST gets a 2xx status iff the provider accepted the e-mail |
| SendEmail.NonPostNeverDelivers | api/send-email.ts:15-22 | a request that is not a POST never reaches the provider |
| App.Initial | App.tsx:14-25 | the app starts on the start screen with empty client data, no devices, no signatures, an empty device model, and no place or inspection type |
| App.HandleStart | App.tsx:67-70 | start keeps the devices and signatures, takes the client fields and moves to the scan screen |
| App.StartDropsLocationAndType | App.tsx:67-70 | the place and inspection type chosen on the start screen are not carried into the shared data; the device model is |
| App.HandleUpdateDevices | App.tsx:73-75 | only the device list changes |
| App.HandleGoToFinalize | App.tsx:78-80 | only the screen changes, to finalize |
| App.HandleBack | App.tsx:107 | back from finalize returns to scan and keeps the data |
| App.HandleUpdateData | App.tsx:82-84 | the data is replaced and the screen kept |
| App.Render | App.tsx:58-109 | while the session loads only a loading indicator is shown; after that, without a session the login screen is shown; with one, the current screen picks the view, and the dashboard screen renders nothing |
| App.Dispatch | App.tsx:90-109 | each mounted screen's callback acts: a start submission on the start screen runs the start handler, a device change on the scan screen replaces the devices, finish with at least one device moves to finalize, and back or a data change on the finalize screen returns to scan or replaces the data; only those callbacks change the state, and finishing requires at least one device |
| App.NeverDashboard | App.tsx:66-84 | no sequence of events reaches the dashboard screen |
| App.StartIsLeftOnlyBySubmit | App.tsx:90-92 | on the start screen, any sequence of events without a start submission changes neither the screen nor the data |
| App.DrainTriggers | App.tsx:41-50 | one drain is requested at mount iff the browser is online then, and one per `online` event, in event order |
| App.OnlineTriggers | App.tsx:41-45 | the drain requests after mount are exactly the positions of the `online` events |
| Start.InitialForm | components/StartScreen.tsx:11-17 | the form starts empty, with model "Posnet Temo", an annual inspection, the given location and no error |
| Start.EditName | components/StartScreen.tsx:100-103 | editing the name clears the error and changes nothing else |
| Start.EditNip | components/StartScreen.tsx:116-119 | editing the NIP (tax number) clears the error and changes nothing else |
| Start.EditEmail | components/StartScreen.tsx:131 | editing the e-mail keeps the error |
| Start.HandleStart | components/StartScreen.tsx:26-37 | a blank name is refused first, then a blank NIP, each with its message; otherwise the untrimmed fields are submitted |
| Start.FixingNameAfterRefusal | components/StartScreen.tsx:26-37 | after a name refusal, typing a non-blank name clears the error, and submitting then succeeds or refuses only for the NIP |
| Scan.AddDevice | components/ScanScreen.tsx:36-52 | a serial that is not blank after trimming puts one new working device without fault details in front of the list, with the trimmed serial, the given id and the time; a blank one changes nothing |
| Scan.Find | components/ScanScreen.tsx:80 | finds a device with the id, and no device before it in the list has that id; nothing exactly when no device has it |
| Scan.MarkFaulty | components/ScanScreen.tsx:88 | marks exactly the devices with that id as faulty and keeps their details |
| Scan.MarkWorking | components/ScanScreen.tsx:91-93 | marks exactly the devices with that id as working and drops their fault details |
| Scan.StatusClick | components/ScanScreen.tsx:79-97 | clicking a working device opens the editor prefilled from it and marks it faulty; clicking a faulty one marks it working and closes the editor; an unknown id changes nothing |
| Scan.DoubleClickRestores | components/ScanScreen.tsx:83-96 | two clicks on a working device without details restore the list and close the editor |
| Scan.SaveFaultDetails | components/ScanScreen.tsx:99-106 | the edited description and service flag are written to exactly the edited device, and the editor closes; with no device being edited nothing happens |
| Scan.SaveThenMarkWorkingForgetsDetails | components/ScanScreen.tsx:91-106 | marking a device working after saving its fault details gives the same list as marking it working without saving |
| Scan.CancelEdit | components/ScanScreen.tsx:108-110 | cancelling closes the editor and keeps the devices |
| Scan.RemoveDevice | components/ScanScreen.tsx:112-114 | afterwards no device has the id, and every other device is kept |
| Scan.RemoveDeviceAppend | components/ScanScreen.tsx:113 | removal filters each part of the list separately, so order is kept |
| Scan.RemoveAbsent | components/ScanScreen.tsx:113 | removing an id not in the list changes nothing |
| Scan.AddThenRemove | components/ScanScreen.tsx:39-50 | removing a device just added with a fresh id gives back the list from before |
| Pdf.DateStringHasNoWhitespace | services/pdfService.ts:67-71 | the `DD.MM.YYYY` date string has no white space |
| Pdf.DateRoundTrip | services/pdfService.ts:67-71 | the date string of a valid date reads back as day, month and year |
| Pdf.DateString | services/pdfService.ts:67-71 | the date string is at least seven characters; for a real date it has dots at positions 2 and 5 and is the year's length plus six |
| Pdf.StatusCell | services/pdfService.ts:109-112 | "Sprawna" exactly for a working device; "Niesprawna (Serwis)" exactly for a faulty one taken to service; plain "Niesprawna" exactly for the other faulty ones |
| Pdf.RemarksCell | services/pdfService.ts:114-120 | the remarks cell is never empty, and is "-" for every working device |
| Pdf.TableBody | services/pdfService.ts:108-129 | one row per device, in order, numbered from 1, with the status, remarks and model cells of that device |
| Pdf.StatusCellRoundTrip | services/pdfService.ts:109-112 | the status cell tells working, faulty and faulty-in-service apart |
| Pdf.WorkingRowIgnoresDetails | services/pdfService.ts:109-120 | a working device's row does not depend on its fault details |
| Pdf.FaultyRemarks | services/pdfService.ts:114-120 | a faulty device's remarks are never empty and are exactly its description, or "Brak opisu" when it has none, followed by the service note " \| Zabrano do serwisu" when it was taken to service, in which case the status also carries the service mark |
| Pdf.ModelCell | services/pdfService.ts:124 | the model cell is the device model, or "-" when it is empty or missing |
| Pdf.FileName | services/pdfService.ts:175-176 | the file name starts with `Protokol_`, ends with `.pdf`, and is at least 21 characters |
| Pdf.FileNameHasNoWhitespace | services/pdfService.ts:175-176 | the report's file name has no white space |
| Pdf.FileNameParts | services/pdfService.ts:175-176 | the file name starts with `Protokol_` and ends with `.pdf`; the middle is the client name with its white-space runs replaced, followed by the `_` before the date, so it keeps every character of the name except white space and `_`, in order |
| Pdf.FileNameDate | services/pdfService.ts:175-176 | the report date can be read back from the end of the file name |
| Finalize.HandleSignature | components/FinalizeScreen.tsx:63-68 | only the serviceman signature is replaced |
| Finalize.FinalizedData | components/FinalizeScreen.tsx:80 | the merged data takes the typed e-mail and location and keeps every other field |
| Finalize.HandleFinish | components/FinalizeScreen.tsx:70-118 | without a signature the alert is shown and nothing is stored; when PDF generation fails, the merged data is kept but nothing is stored, no PDF is set and the failure alert is shown; otherwise the PDF is named from the normalised client name of the merged data and the date, the inspection is saved locally, a cloud row is written only when online, and the screen is submitted iff the local save succeeded; a failed local save keeps the PDF and shows the failure alert; every outcome that is not a submission shows an alert; when submitted online, the cloud row counts as saved iff the insert worked |
| Finalize.CloudFailureDoesNotStopFinish | components/FinalizeScreen.tsx:91-109 | the cloud insert's outcome never changes whether the protocol is submitted |
| Finalize.AttachmentContent | components/FinalizeScreen.tsx:131 | there is content exactly when the data URL contains a comma, and the content has no comma |
| Finalize.DataUrlContentRoundTrip | components/FinalizeScreen.tsx:131 | the attachment content cut out of the PDF data URL is exactly the base64 payload |
| Finalize.ReportEmail | components/FinalizeScreen.tsx:134-139 | the report e-mail carries one attachment: the PDF's file name with the base64 content |
| Finalize.RouteSend | components/FinalizeScreen.tsx:120-191 | with no PDF or no e-mail nothing happens; offline the report is queued; online it is posted and the outbox is untouched |
| Finalize.HandleSendEmailAsWritten | components/FinalizeScreen.tsx:123-150 | as written: a failed offline enqueue leaves no alert and the busy flag set |
| Finalize.QueueFailureIsSilentAsWritten | components/FinalizeScreen.tsx:129-148 | offline, with storage unavailable, the code as written fails to queue, shows no alert and stays busy |
| Finalize.HandleSendEmail | components/FinalizeScreen.tsx:120-191 | every send ends the busy state; offline, the "queued" notice is shown iff queueing succeeded and the queue-error alert iff it failed; online, the success dialog is shown iff the POST was delivered and an alert otherwise |
| Finalize.OfflineSendQueuesReport | components/FinalizeScreen.tsx:123-143 | offline, a successful send leaves exactly one new outbox item whose later POST body is the report e-mail |
| Reminders.Due | api/cron/send-reminders.ts:31-35 | the due inspections are exactly the rows dated on the target day and not yet reminded; a one-row table yields that row iff it is due |
| Reminders.DueAppend | api/cron/send-reminders.ts:31-35 | selection distributes over concatenation, so the due rows keep their table order |
| Reminders.MarkSent | api/cron/send-reminders.ts:77-80 | the update sets `reminder_sent` on exactly the rows with that id and changes nothing else |
| Reminders.StatusCode | api/cron/send-reminders.ts:38-42 | the job answers 500 exactly when the query failed, and 200 otherwise |
| Reminders.ReminderFor | api/cron/send-reminders.ts:54-57 | each reminder goes to the office address alone, with the subject prefix followed by the client's name |
| Reminders.Classify | api/cron/send-reminders.ts:72-92 | `success` exactly when both the send and the flag update worked; a send error is `failed`; an update error after a send is `email_sent_but_db_failed`; a throw from either step is `error` |
| Reminders.ProcessFrom | api/cron/send-reminders.ts:51-93 | one result and one reminder e-mail per due inspection, in order |
| Reminders.ProcessFromTable | api/cron/send-reminders.ts:72-88 | the flag is set on exactly the rows whose reminder succeeded, and nothing else in the table changes |
| Reminders.Cron | api/cron/send-reminders.ts:19-105 | a failed query answers 500; no due rows answers "No reminders to send" without sending; otherwise one result per due row, in order, carrying that row's id and the status its send and update earned, and one reminder per due row |
| Reminders.FlagSetOnlyAfterSuccess | api/cron/send-reminders.ts:72-88 | after the job, a row is flagged iff it was flagged before or its reminder ended in `success` |
| Reminders.RerunRetriesOnlyUnfinished | api/cron/send-reminders.ts:31-88 | running the job again the same day selects exactly the rows whose previous attempt did not succeed |

## Left out

- Asynchrony and transactions. Each IndexedDB request is one atomic step. The drain's `delete` is not awaited in the code; the model treats it as done before the next POST, and a failing delete is not modelled.
- Overlapping drains. Two drains can run at once (mount and `online` together), and nothing in the code prevents it. `App.DrainTriggers` only counts the requests; interleavings are not modelled.
- The network and the e-mail provider are oracles. Response bodies and provider error messages are not modelled.
- The Supabase client is not modelled. The cloud insert's outcome, the cron query and the per-row update outcomes are inputs.
- The auth session is not modelled. Its loading and session state are inputs to `App.Render`.
- jsPDF drawing, the font download and the `txt()` fallback transliteration are not modelled. Cell texts are modelled as the strings handed to the table. The Polish-letter normalisation of the file name (`normalizeText`) is a function parameter `normalize`; its mapping is not modelled.
- `FileReader` is not modelled. The data URL is modelled as `data:application/pdf;base64,` followed by a base64 payload, which has no comma.
- `generateCalendarEvent`, the e-mail templates, the dashboard, login, camera scanner and signature pad screens, and `vite.config.ts` are not part of this model. Subjects and HTML bodies are inputs.
- Geolocation in FinalizeScreen is not modelled. The location is an input.
- `window.alert` texts other than the ones named in `Finalize` and `Start` are not modelled.
- Db.SortNewestFirst: states a sorted permutation but not the stability of JavaScript's sort on equal timestamps.
- Reminders.Cron: the target date (today plus 14 days) is an input, because it comes from the clock. The query's row order is taken to be the table's order.
- Reminders.ProcessFrom: the reminder e-mail's HTML body and sender are not modelled, only the recipient and the subject. An update that throws is taken to leave the row unflagged.
- Finalize.HandleFinish: one `nowIso` stands for both `completedAt` (read by `saveInspectionToDb`, services/db.ts:57) and `inspection_date` (components/FinalizeScreen.tsx:95). The code reads the clock separately for each, so the two can differ by milliseconds.
- SendEmail.Handler: a POST without a body is not modelled. The code destructures `req.body` before its `try` (api/send-email.ts:24), so such a request throws outside the handler's error path.
- Sync.AddToQueue: a caller-supplied `id` field in the e-mail object is not modelled. The store's key generator always chooses the key.
- Behaviour worth noting, as the code does it:
  - The outbox is drained in ascending key order; keys are auto-incremented, so this is the order of enqueueing.
  - Nothing stops two drains from overlapping.
  - A failed enqueue in FinalizeScreen is not shown to the user (see Findings).

## Findings

| source | as written | input that shows it | evidently intended | confidence | as-written member | corrected member |
|---|---|---|---|---|---|---|
| components/FinalizeScreen.tsx:129-148 | offline, `await addToQueue(...)` runs inside the `onloadend` callback, outside the `try` whose `catch` shows the queue-error alert, so a rejected enqueue shows nothing and `isGenerating` stays true | offline, PDF present, e-mail "a@b.com", IndexedDB unavailable (`Finalize.QueueFailureIsSilentAsWritten`) | the queue-error alert is shown and the busy state ends | medium, not executed | Finalize.HandleSendEmailAsWritten | Finalize.HandleSendEmail |
