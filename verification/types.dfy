/** The shared record shapes of the inspection app (types.ts). */
module Types {
  import opened Wrappers

  /** One scanned fiscal printer. `issueDescription` and `takenToService` are
      optional fields; `id` comes from a random generator. */
  datatype Device = Device(
    id: string,
    serialNumber: string,
    isWorking: bool,
    issueDescription: Option<string>,
    takenToService: Option<bool>,
    timestamp: int)

  datatype InspectionType = Annual | Biennial

  /** The data collected by one inspection session. Signatures are base64
      data URLs or null. */
  datatype InspectionData = InspectionData(
    clientName: string,
    clientNip: string,
    clientEmail: string,
    devices: seq<Device>,
    servicemanSignature: Option<string>,
    clientSignature: Option<string>,
    location: Option<string>,
    deviceModel: Option<string>,
    inspectionType: Option<InspectionType>)

  datatype AppScreen = Start | Scan | Finalize | Dashboard

  /** JavaScript truthiness of an optional string: `undefined`, `null` and
      the empty string are falsy. */
  predicate Truthy(s: Option<string>) {
    s.Some? && s.value != ""
  }

  /** JavaScript truthiness of an optional boolean. */
  predicate IsTrue(b: Option<bool>) {
    b == Some(true)
  }

  /** `s || fallback` on an optional string. */
  function OrElse(s: Option<string>, fallback: string): (r: string)
    ensures Truthy(s) ==> r == s.value
    ensures !Truthy(s) ==> r == fallback
  {
    if Truthy(s) then s.value else fallback
  }
}
