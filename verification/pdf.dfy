/** The text rules of the inspection report (services/pdfService.ts): the
    `dd.MM.yyyy` date, one table row per device with its status and remarks
    cells, and the report's file name. Drawing, fonts and the transliteration
    fallback are not part of this model. */
module Pdf {
  import opened Wrappers
  import opened Types
  import Text

  // ----- the date string -----

  /** A calendar day as the JavaScript Date reports it: `getDate()`,
      `getMonth() + 1` and `getFullYear()`. */
  datatype CalendarDate = CalendarDate(day: nat, month: nat, year: nat)

  /** Day and month fit in two digits (always so for a real date). */
  predicate TwoDigitFields(d: CalendarDate) {
    d.day < 100 && d.month < 100
  }

  /** `${day}.${month}.${year}` with day and month padded to two digits. */
  function DateString(d: CalendarDate): (r: string)
    ensures |r| >= 7
    ensures TwoDigitFields(d) ==> r[2] == '.' && r[5] == '.' && |r| == 6 + |Text.NatToString(d.year)|
  {
    Text.Pad2(d.day) + "." + Text.Pad2(d.month) + "." + Text.NatToString(d.year)
  }

  /** The date string holds only digits and dots. */
  lemma DateStringHasNoWhitespace(d: CalendarDate)
    ensures Text.NoWhitespace(DateString(d))
  {
    var dd := Text.Pad2(d.day);
    var mm := Text.Pad2(d.month);
    var yyyy := Text.NatToString(d.year);
    assert Text.NoWhitespace(dd) && Text.NoWhitespace(mm) && Text.NoWhitespace(yyyy) && Text.NoWhitespace(".");
    Text.NoWhitespaceAppend(dd, ".");
    Text.NoWhitespaceAppend(dd + ".", mm);
    Text.NoWhitespaceAppend(dd + "." + mm, ".");
    Text.NoWhitespaceAppend(dd + "." + mm + ".", yyyy);
  }

  /** Read a `dd.MM.yyyy` string back. */
  function ParseDate(s: string): Option<CalendarDate> {
    if |s| >= 7 && s[2] == '.' && s[5] == '.'
       && Text.IsDigits(s[..2]) && Text.IsDigits(s[3..5]) && Text.IsDigits(s[6..])
    then Some(CalendarDate(Text.DigitsValue(s[..2]), Text.DigitsValue(s[3..5]), Text.DigitsValue(s[6..])))
    else None
  }

  /** The date string determines the date it was made from. */
  lemma {:induction false} DateRoundTrip(d: CalendarDate)
    requires TwoDigitFields(d)
    ensures ParseDate(DateString(d)) == Some(d)
  {
    var s := DateString(d);
    var dd := Text.Pad2(d.day);
    var mm := Text.Pad2(d.month);
    var yyyy := Text.NatToString(d.year);
    assert s == dd + "." + mm + "." + yyyy;
    assert s[..2] == dd;
    assert s[3..5] == mm;
    assert s[6..] == yyyy;
    Text.NatToStringRoundTrip(d.year);
  }

  // ----- the device table -----

  const WorkingStatus: string := "Sprawna"
  const FaultyStatus: string := "Niesprawna"
  const ServiceSuffix: string := " (Serwis)"
  const NoRemarks: string := "-"
  const NoDescription: string := "Brak opisu"
  const TakenToServiceNote: string := " | Zabrano do serwisu"

  /** One table row: 1-based number, device model, serial, status, remarks. */
  datatype Row = Row(index: nat, model: string, serial: string, status: string, remarks: string)

  /** Status: working or not, with the service mark only on a faulty device
      that was taken to service. */
  function StatusCell(d: Device): (r: string)
    ensures r == WorkingStatus <==> d.isWorking
    ensures r == FaultyStatus + ServiceSuffix <==> !d.isWorking && IsTrue(d.takenToService)
    ensures r == FaultyStatus <==> !d.isWorking && !IsTrue(d.takenToService)
  {
    if d.isWorking then WorkingStatus
    else if IsTrue(d.takenToService) then FaultyStatus + ServiceSuffix
    else FaultyStatus
  }

  /** Remarks: "-" for a working device whatever details it carries; for a
      faulty one its description, or "Brak opisu" when that is missing or
      empty, followed by the service note when it was taken to service. */
  function RemarksCell(d: Device): (r: string)
    ensures d.isWorking ==> r == NoRemarks
    ensures r != ""
  {
    if d.isWorking then NoRemarks
    else OrElse(d.issueDescription, NoDescription)
         + (if IsTrue(d.takenToService) then TakenToServiceNote else "")
  }

  /** The device-model column: "-" when the model is missing or empty. */
  function ModelCell(model: Option<string>): (r: string)
    ensures r != ""
    ensures Truthy(model) ==> r == model.value
    ensures !Truthy(model) ==> r == NoRemarks
  {
    OrElse(model, NoRemarks)
  }

  /** `data.devices.map(...)`: one row per device, in list order. */
  function TableBody(data: InspectionData): (r: seq<Row>)
    ensures |r| == |data.devices|
    ensures forall i :: 0 <= i < |r| ==>
      && r[i].index == i + 1
      && r[i].model == ModelCell(data.deviceModel)
      && r[i].serial == data.devices[i].serialNumber
      && r[i].status == StatusCell(data.devices[i])
      && r[i].remarks == RemarksCell(data.devices[i])
  {
    seq(|data.devices|, i requires 0 <= i < |data.devices| =>
      Row(i + 1, ModelCell(data.deviceModel), data.devices[i].serialNumber,
          StatusCell(data.devices[i]), RemarksCell(data.devices[i])))
  }

  /** What a reader of the report learns from the status cell: whether the
      device works, and whether it went to service. */
  datatype StatusReading = StatusReading(working: bool, inService: bool)

  function ReadStatus(cell: string): Option<StatusReading> {
    if cell == WorkingStatus then Some(StatusReading(true, false))
    else if cell == FaultyStatus then Some(StatusReading(false, false))
    else if cell == FaultyStatus + ServiceSuffix then Some(StatusReading(false, true))
    else None
  }

  /** The status cell states the device's working flag, and its service flag
      exactly when the device is faulty. */
  lemma StatusCellRoundTrip(d: Device)
    ensures ReadStatus(StatusCell(d))
         == Some(StatusReading(d.isWorking, !d.isWorking && IsTrue(d.takenToService)))
  {
  }

  /** A working device's row ignores any leftover fault details. */
  lemma WorkingRowIgnoresDetails(d: Device, description: Option<string>, service: Option<bool>)
    requires d.isWorking
    ensures var e := d.(issueDescription := description, takenToService := service);
            StatusCell(e) == WorkingStatus && RemarksCell(e) == NoRemarks
  {
  }

  /** A faulty device always has non-empty remarks, which start with its
      description when it has one; taken to service, both the status and the
      remarks carry the service mark. */
  lemma {:induction false} FaultyRemarks(d: Device)
    requires !d.isWorking
    ensures var r := RemarksCell(d);
      && |r| > 0
      && (Truthy(d.issueDescription) ==> r[..|d.issueDescription.value|] == d.issueDescription.value)
      && (!Truthy(d.issueDescription) ==> r[..|NoDescription|] == NoDescription)
      && (IsTrue(d.takenToService) ==>
            && |r| >= |TakenToServiceNote| && r[|r| - |TakenToServiceNote|..] == TakenToServiceNote
            && StatusCell(d) == FaultyStatus + ServiceSuffix)
      && (!IsTrue(d.takenToService) ==>
            r == (if Truthy(d.issueDescription) then d.issueDescription.value else NoDescription))
      && (IsTrue(d.takenToService) ==>
            r == (if Truthy(d.issueDescription) then d.issueDescription.value else NoDescription)
                 + TakenToServiceNote)
  {
    var head := OrElse(d.issueDescription, NoDescription);
    var tail := if IsTrue(d.takenToService) then TakenToServiceNote else "";
    var r := RemarksCell(d);
    assert r == head + tail;
    assert r[..|head|] == head;
    if tail == "" {
      assert r == head;
    }
    assert r[|r| - |tail|..] == tail;
  }

  // ----- the file name -----

  /** `Protokol_${safeClientName}_${dateStr}.pdf`, where the safe name is the
      transliterated client name (`normalizeText`, supplied here as
      `normalizedName`) with each whitespace run turned into '_'. */
  function FileName(normalizedName: string, date: CalendarDate): (r: string)
    ensures |r| >= 21
    ensures r[..9] == "Protokol_" && r[|r| - 4..] == ".pdf"
  {
    "Protokol_" + Text.UnderscoreWhitespaceRuns(normalizedName) + "_" + DateString(date) + ".pdf"
  }

  /** The file name contains no whitespace at all. */
  lemma FileNameHasNoWhitespace(normalizedName: string, date: CalendarDate)
    ensures Text.NoWhitespace(FileName(normalizedName, date))
  {
    var safe := Text.UnderscoreWhitespaceRuns(normalizedName);
    var ds := DateString(date);
    DateStringHasNoWhitespace(date);
    var p := "Protokol_";
    var u := "_";
    var e := ".pdf";
    Text.VisibleAsciiHasNoWhitespace(p);
    Text.VisibleAsciiHasNoWhitespace(u);
    Text.VisibleAsciiHasNoWhitespace(e);
    assert FileName(normalizedName, date) == p + safe + u + ds + e;
    Text.NoWhitespaceAppend(p, safe);
    Text.NoWhitespaceAppend(p + safe, u);
    Text.NoWhitespaceAppend(p + safe + u, ds);
    Text.NoWhitespaceAppend(p + safe + u + ds, e);
  }

  /** The file name is the fixed prefix, then the name with its whitespace
      runs replaced (every other character kept, in order), then the date
      and the extension. */
  lemma {:induction false} FileNameParts(normalizedName: string, date: CalendarDate)
    ensures var r := FileName(normalizedName, date);
            var safe := Text.UnderscoreWhitespaceRuns(normalizedName);
            && |r| == 14 + |safe| + |DateString(date)|
            && r[..9] == "Protokol_" && r[|r| - 4..] == ".pdf"
            && r[9..9 + |safe|] == safe && r[9 + |safe|] == '_'
            && Text.Letters(r[9..9 + |safe|]) == Text.Letters(normalizedName)
  {
    var safe := Text.UnderscoreWhitespaceRuns(normalizedName);
    var tail := "_" + DateString(date) + ".pdf";
    assert FileName(normalizedName, date) == "Protokol_" + safe + tail;
    SliceThree("Protokol_", safe, tail);
    assert tail[|tail| - 4..] == ".pdf";
    Text.UnderscoreKeepsLetters(normalizedName);
  }

  /** Cutting a three-part concatenation back into its parts. */
  lemma SliceThree(a: string, b: string, c: string)
    ensures var s := a + b + c;
            && |s| == |a| + |b| + |c|
            && s[..|a|] == a && s[|a|..|a| + |b|] == b && s[|a| + |b|..] == c
  {
  }

  /** The date can be read back from the end of the file name. */
  lemma {:induction false} FileNameDate(normalizedName: string, date: CalendarDate)
    requires TwoDigitFields(date)
    ensures var r := FileName(normalizedName, date);
            var n := |DateString(date)|;
            |r| >= n + 4 && ParseDate(r[|r| - 4 - n..|r| - 4]) == Some(date)
  {
    var r := FileName(normalizedName, date);
    var ds := DateString(date);
    assert r == ("Protokol_" + Text.UnderscoreWhitespaceRuns(normalizedName) + "_") + ds + ".pdf";
    assert r[|r| - 4 - |ds|..|r| - 4] == ds;
    DateRoundTrip(date);
  }
}
