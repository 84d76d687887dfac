/** The top-level screen machine (App.tsx): which screen shows, the shared
    inspection data, the handlers each screen is given, and the moments at
    which the outbox drain is started. */
module App {
  import opened Wrappers
  import opened Types
  import Start

  datatype AppState = AppState(screen: AppScreen, data: InspectionData)

  /** The data before anything is entered. The device model starts as the
      empty string (not missing); place and inspection type are missing. */
  const InitialData: InspectionData :=
    InspectionData("", "", "", [], None, None, None, Some(""), None)

  function Initial(): (s: AppState)
    ensures s.screen == Start
    ensures s.data.clientName == "" && s.data.clientNip == "" && s.data.clientEmail == ""
    ensures s.data.devices == [] && s.data.servicemanSignature.None? && s.data.clientSignature.None?
    ensures s.data.deviceModel == Some("") && s.data.location.None? && s.data.inspectionType.None?
  {
    AppState(Start, InitialData)
  }

  /** `handleStart(name, nip, email, model)`: sets those four fields and
      moves to the scan screen; every other field is kept. */
  function HandleStart(s: AppState, clientName: string, clientNip: string, clientEmail: string,
                       deviceModel: string): (r: AppState)
    ensures r.screen == Scan
    ensures r.data.clientName == clientName && r.data.clientNip == clientNip
    ensures r.data.clientEmail == clientEmail && r.data.deviceModel == Some(deviceModel)
    ensures r.data.(clientName := s.data.clientName, clientNip := s.data.clientNip,
                    clientEmail := s.data.clientEmail, deviceModel := s.data.deviceModel) == s.data
  {
    AppState(Scan, s.data.(clientName := clientName, clientNip := clientNip,
                           clientEmail := clientEmail, deviceModel := Some(deviceModel)))
  }

  /** `handleUpdateDevices(devices)`: replaces the device list only. */
  function HandleUpdateDevices(s: AppState, devices: seq<Device>): (r: AppState)
    ensures r.screen == s.screen && r.data.devices == devices
    ensures r.data.(devices := s.data.devices) == s.data
  {
    s.(data := s.data.(devices := devices))
  }

  /** `handleGoToFinalize()`: moves to the finalize screen, data untouched. */
  function HandleGoToFinalize(s: AppState): (r: AppState)
    ensures r.screen == Finalize && r.data == s.data
  {
    s.(screen := Finalize)
  }

  /** The finalize screen's `onBack`: returns to the scan screen. */
  function HandleBack(s: AppState): (r: AppState)
    ensures r.screen == Scan && r.data == s.data
  {
    s.(screen := Scan)
  }

  /** `handleUpdateData(newData)`: replaces the data wholesale. */
  function HandleUpdateData(s: AppState, newData: InspectionData): (r: AppState)
    ensures r.screen == s.screen && r.data == newData
  {
    s.(data := newData)
  }

  /** The StartScreen submission as App receives it: `onStart` is called
      with six values but `handleStart` declares four parameters, so the
      place and the inspection type are dropped. */
  lemma {:induction false} StartDropsLocationAndType(s: AppState, sub: Start.Submission)
    ensures var r := HandleStart(s, sub.clientName, sub.clientNip, sub.clientEmail, sub.deviceModel);
            && r.data.location == s.data.location
            && r.data.inspectionType == s.data.inspectionType
            && r.data.deviceModel == Some(sub.deviceModel)
  {
  }

  /** What is on screen. */
  datatype View = LoadingView | LoginView | StartView | ScanView | FinalizeView | EmptyView

  /** The render function: a spinner while the session is loading, the login
      screen whenever there is no session, otherwise the current screen;
      DASHBOARD has no branch and renders nothing. */
  function Render(loading: bool, hasSession: bool, s: AppState): (v: View)
    ensures loading <==> v == LoadingView
    ensures !loading && !hasSession <==> v == LoginView
    ensures !loading && hasSession ==>
      v == (match s.screen
            case Start => StartView
            case Scan => ScanView
            case Finalize => FinalizeView
            case Dashboard => EmptyView)
  {
    if loading then LoadingView
    else if !hasSession then LoginView
    else match s.screen
      case Start => StartView
      case Scan => ScanView
      case Finalize => FinalizeView
      case Dashboard => EmptyView
  }

  /** A user action reaching App through a screen's callbacks. */
  datatype UiEvent =
    | Submitted(sub: Start.Submission)
    | DevicesChanged(devices: seq<Device>)
    | FinishPressed
    | DataChanged(data: InspectionData)
    | BackPressed

  /** Route an event to its handler, but only when the component that owns
      the callback is mounted: StartScreen on START, ScanScreen on SCAN (its
      finish button is disabled while the list is empty), FinalizeScreen on
      FINALIZE. Any other event has no effect. */
  function Dispatch(s: AppState, e: UiEvent): (r: AppState)
    ensures s.screen != Dashboard ==> r.screen != Dashboard
    ensures r.screen != s.screen ==>
      || (s.screen == Start && r.screen == Scan)
      || (s.screen == Scan && r.screen == Finalize && |s.data.devices| > 0)
      || (s.screen == Finalize && r.screen == Scan)
    ensures r != s ==>
      || (e.Submitted? && s.screen == Start)
      || ((e.DevicesChanged? || e.FinishPressed?) && s.screen == Scan)
      || ((e.DataChanged? || e.BackPressed?) && s.screen == Finalize)
    ensures s.screen == Start && e.Submitted? ==>
      r == HandleStart(s, e.sub.clientName, e.sub.clientNip, e.sub.clientEmail, e.sub.deviceModel)
    ensures s.screen == Scan && e.DevicesChanged? ==> r == HandleUpdateDevices(s, e.devices)
    ensures s.screen == Scan && e.FinishPressed? && |s.data.devices| > 0 ==> r.screen == Finalize
    ensures s.screen == Finalize && e.BackPressed? ==> r.screen == Scan
    ensures s.screen == Finalize && e.DataChanged? ==> r.data == e.data
  {
    match e
    case Submitted(sub) =>
      if s.screen == Start
      then HandleStart(s, sub.clientName, sub.clientNip, sub.clientEmail, sub.deviceModel)
      else s
    case DevicesChanged(devices) => if s.screen == Scan then HandleUpdateDevices(s, devices) else s
    case FinishPressed =>
      if s.screen == Scan && |s.data.devices| > 0 then HandleGoToFinalize(s) else s
    case DataChanged(d) => if s.screen == Finalize then HandleUpdateData(s, d) else s
    case BackPressed => if s.screen == Finalize then HandleBack(s) else s
  }

  function Run(s: AppState, events: seq<UiEvent>): AppState
    decreases |events|
  {
    if |events| == 0 then s else Run(Dispatch(s, events[0]), events[1..])
  }

  /** No sequence of user actions ever reaches DASHBOARD: no handler sets it. */
  lemma {:induction false} NeverDashboard(s: AppState, events: seq<UiEvent>)
    requires s.screen != Dashboard
    ensures Run(s, events).screen != Dashboard
    decreases |events|
  {
    if |events| > 0 {
      NeverDashboard(Dispatch(s, events[0]), events[1..]);
    }
  }

  /** Only StartScreen's `onStart` leaves START: any sequence of other
      events leaves the state exactly as it was. */
  lemma {:induction false} StartIsLeftOnlyBySubmit(s: AppState, events: seq<UiEvent>)
    requires s.screen == Start
    requires forall i :: 0 <= i < |events| ==> !events[i].Submitted?
    ensures Run(s, events) == s
    decreases |events|
  {
    if |events| > 0 {
      assert Dispatch(s, events[0]) == s;
      StartIsLeftOnlyBySubmit(s, events[1..]);
    }
  }

  // ----- drain triggers -----

  /** Connectivity events the window reports after mount. */
  datatype NetEvent = WentOnline | WentOffline

  /** A request to run `processQueue()`: at mount, or for the online event
      at a given position. */
  datatype DrainTrigger = AtMount | OnOnline(index: nat)

  /** The mount effect: one drain at mount if the browser is online, then one
      for every `online` event, with no guard against overlap. */
  function DrainTriggers(onlineAtMount: bool, events: seq<NetEvent>): (r: seq<DrainTrigger>)
    ensures (|r| > 0 && r[0] == AtMount) <==> onlineAtMount
    ensures forall t :: t in r && t.OnOnline? ==> t.index < |events| && events[t.index] == WentOnline
    ensures forall i :: 0 <= i < |events| && events[i] == WentOnline ==> OnOnline(i) in r
    ensures forall i, j :: 0 <= i < j < |r| ==> r[j].OnOnline? && (r[i].OnOnline? ==> r[i].index < r[j].index)
  {
    (if onlineAtMount then [AtMount] else []) + OnlineTriggers(events, 0)
  }

  function OnlineTriggers(events: seq<NetEvent>, from: nat): (r: seq<DrainTrigger>)
    requires from <= |events|
    decreases |events| - from
    ensures forall t :: t in r ==> t.OnOnline? && from <= t.index < |events| && events[t.index] == WentOnline
    ensures forall i :: from <= i < |events| && events[i] == WentOnline ==> OnOnline(i) in r
    ensures forall i, j :: 0 <= i < j < |r| ==> r[i].index < r[j].index
  {
    if from == |events| then []
    else
      var rest := OnlineTriggers(events, from + 1);
      if events[from] == WentOnline then [OnOnline(from)] + rest else rest
  }
}
