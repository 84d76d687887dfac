/** The session set-up form (components/StartScreen.tsx): client name, NIP,
    e-mail, place, device model and inspection type, with a validator that
    requires a name and a NIP. */
module Start {
  import opened Wrappers
  import opened Types
  import Text

  const DefaultDeviceModel: string := "Posnet Temo"
  const DefaultInspectionType: InspectionType := Annual
  const NameRequired: string := "Nazwa Nadleśnictwa jest wymagana."
  const NipRequired: string := "NIP Klienta jest wymagany."

  /** The form's state; `error` is the empty string when no error is shown. */
  datatype Form = Form(
    clientName: string,
    clientNip: string,
    clientEmail: string,
    location: string,
    deviceModel: string,
    inspectionType: InspectionType,
    error: string)

  /** The six values `onStart` receives. */
  datatype Submission = Submission(
    clientName: string,
    clientNip: string,
    clientEmail: string,
    deviceModel: string,
    location: string,
    inspectionType: InspectionType)

  /** The form as first rendered: empty fields, the default device model and
      inspection type, and the place taken from `initialLocation` when it is
      truthy. */
  function InitialForm(initialLocation: Option<string>): (f: Form)
    ensures f.clientName == "" && f.clientNip == "" && f.clientEmail == "" && f.error == ""
    ensures f.deviceModel == DefaultDeviceModel && f.inspectionType == DefaultInspectionType
    ensures Truthy(initialLocation) ==> f.location == initialLocation.value
    ensures !Truthy(initialLocation) ==> f.location == ""
  {
    Form("", "", "", OrElse(initialLocation, ""), DefaultDeviceModel, DefaultInspectionType, "")
  }

  /** Typing in the name or NIP field clears the error; the e-mail and place
      fields leave it as it is. */
  function EditName(f: Form, v: string): (r: Form)
    ensures r.clientName == v && r.error == ""
    ensures r.(clientName := f.clientName, error := f.error) == f
  {
    f.(clientName := v, error := "")
  }

  function EditNip(f: Form, v: string): (r: Form)
    ensures r.clientNip == v && r.error == ""
    ensures r.(clientNip := f.clientNip, error := f.error) == f
  {
    f.(clientNip := v, error := "")
  }

  function EditEmail(f: Form, v: string): (r: Form)
    ensures r.clientEmail == v && r.error == f.error
    ensures r.(clientEmail := f.clientEmail) == f
  {
    f.(clientEmail := v)
  }

  datatype StartResult = StartResult(form: Form, started: Option<Submission>)

  /** `handleStart`: a name that is blank after trimming is refused first, a
      blank NIP second; the e-mail is not checked; on success `onStart` gets
      the raw, untrimmed values and the form is unchanged. */
  function HandleStart(f: Form): (r: StartResult)
    ensures r.started.Some? <==> !Text.AllWhitespace(f.clientName) && !Text.AllWhitespace(f.clientNip)
    ensures Text.AllWhitespace(f.clientName) ==> r.form == f.(error := NameRequired)
    ensures !Text.AllWhitespace(f.clientName) && Text.AllWhitespace(f.clientNip) ==>
              r.form == f.(error := NipRequired)
    ensures r.started.Some? ==>
              && r.form == f
              && r.started.value == Submission(f.clientName, f.clientNip, f.clientEmail,
                                               f.deviceModel, f.location, f.inspectionType)
  {
    if Text.Trim(f.clientName) == "" then StartResult(f.(error := NameRequired), None)
    else if Text.Trim(f.clientNip) == "" then StartResult(f.(error := NipRequired), None)
    else StartResult(f, Some(Submission(f.clientName, f.clientNip, f.clientEmail,
                                         f.deviceModel, f.location, f.inspectionType)))
  }

  /** After a refused submit, fixing the name clears the message, and a
      second submit with a filled NIP goes through. */
  lemma {:induction false} FixingNameAfterRefusal(f: Form, name: string)
    requires HandleStart(f).started.None?
    requires !Text.AllWhitespace(name) && !Text.AllWhitespace(f.clientNip)
    ensures EditName(HandleStart(f).form, name).error == ""
    ensures HandleStart(EditName(HandleStart(f).form, name)).started.Some?
  {
  }
}
