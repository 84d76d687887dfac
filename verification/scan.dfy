/** The device list of one inspection (components/ScanScreen.tsx) as pure
    list transformations. The random id and the clock are parameters. */
module Scan {
  import opened Wrappers
  import opened Types
  import Text

  /** The fault-details modal: the id being edited (None: closed) and the
      modal's two inputs. */
  datatype Editor = Editor(editingId: Option<string>, description: string, takenToService: bool)

  datatype ScanState = ScanState(devices: seq<Device>, editor: Editor)

  /** A device in its just-scanned state: working, no fault details. */
  predicate Clean(d: Device) {
    d.isWorking && d.issueDescription.None? && d.takenToService.None?
  }

  predicate HasId(devices: seq<Device>, id: string) {
    exists i :: 0 <= i < |devices| && devices[i].id == id
  }

  /** `handleAddDevice(serial)` with the new id and the time supplied: a
      serial that is blank after trimming is ignored; otherwise a working
      device with the trimmed serial goes in front of the list. */
  function AddDevice(devices: seq<Device>, serial: string, id: string, now: int): (r: seq<Device>)
    ensures Text.AllWhitespace(serial) ==> r == devices
    ensures !Text.AllWhitespace(serial) ==>
      && |r| == |devices| + 1 && r[1..] == devices
      && r[0].id == id && r[0].serialNumber == Text.Trim(serial) && Clean(r[0]) && r[0].timestamp == now
  {
    if Text.Trim(serial) == "" then devices
    else [Device(id, Text.Trim(serial), true, None, None, now)] + devices
  }

  /** `devices.find(d => d.id === id)`: the first device with that id. */
  function Find(devices: seq<Device>, id: string): (r: Option<Device>)
    ensures r.None? <==> !HasId(devices, id)
    ensures r.Some? ==> r.value.id == id && r.value in devices
    ensures r.Some? ==> exists i :: 0 <= i < |devices| && devices[i] == r.value
                                    && forall j :: 0 <= j < i ==> devices[j].id != id
  {
    if |devices| == 0 then None
    else if devices[0].id == id then Some(devices[0])
    else
      var r := Find(devices[1..], id);
      assert r.Some? ==> exists i :: 0 <= i < |devices| && devices[i] == r.value
                                     && forall j :: 0 <= j < i ==> devices[j].id != id by {
        if r.Some? {
          var i :| 0 <= i < |devices[1..]| && devices[1..][i] == r.value
                   && forall j :: 0 <= j < i ==> devices[1..][j].id != id;
          assert devices[i + 1] == r.value;
          forall j | 0 < j < i + 1 ensures devices[j].id != id {
            assert devices[j] == devices[1..][j - 1];
          }
        }
      }
      assert HasId(devices, id) <==> HasId(devices[1..], id) by {
        if HasId(devices, id) {
          var i :| 0 <= i < |devices| && devices[i].id == id;
          assert devices[1..][i - 1] == devices[i];
        }
        if HasId(devices[1..], id) {
          var i :| 0 <= i < |devices[1..]| && devices[1..][i].id == id;
          assert devices[i + 1] == devices[1..][i];
        }
      }
      r
  }

  /** Every device with the id marked faulty; nothing else changes. */
  function MarkFaulty(devices: seq<Device>, id: string): (r: seq<Device>)
    ensures |r| == |devices|
    ensures forall i :: 0 <= i < |r| && devices[i].id == id ==> r[i] == devices[i].(isWorking := false)
    ensures forall i :: 0 <= i < |r| && devices[i].id != id ==> r[i] == devices[i]
  {
    seq(|devices|, i requires 0 <= i < |devices| =>
      if devices[i].id == id then devices[i].(isWorking := false) else devices[i])
  }

  /** Every device with the id marked working with its fault details
      cleared; nothing else changes. */
  function MarkWorking(devices: seq<Device>, id: string): (r: seq<Device>)
    ensures |r| == |devices|
    ensures forall i :: 0 <= i < |r| && devices[i].id == id ==>
      r[i] == devices[i].(isWorking := true, issueDescription := None, takenToService := None)
    ensures forall i :: 0 <= i < |r| && devices[i].id != id ==> r[i] == devices[i]
  {
    seq(|devices|, i requires 0 <= i < |devices| =>
      if devices[i].id == id
      then devices[i].(isWorking := true, issueDescription := None, takenToService := None)
      else devices[i])
  }

  /** `handleStatusClick(id)`: nothing for an unknown id; a working device is
      marked faulty (its description and service flag are kept) and the
      modal opens pre-filled with them; a faulty device is marked working,
      its details are cleared and the modal closes. */
  function StatusClick(s: ScanState, id: string): (r: ScanState)
    ensures !HasId(s.devices, id) ==> r == s
    ensures HasId(s.devices, id) && Find(s.devices, id).value.isWorking ==>
      var d := Find(s.devices, id).value;
      && r.devices == MarkFaulty(s.devices, id)
      && r.editor == Editor(Some(id), OrElse(d.issueDescription, ""), IsTrue(d.takenToService))
    ensures HasId(s.devices, id) && !Find(s.devices, id).value.isWorking ==>
      && r.devices == MarkWorking(s.devices, id)
      && r.editor == s.editor.(editingId := None)
  {
    match Find(s.devices, id)
    case None => s
    case Some(d) =>
      if d.isWorking then
        ScanState(MarkFaulty(s.devices, id),
                  Editor(Some(id), OrElse(d.issueDescription, ""), IsTrue(d.takenToService)))
      else
        ScanState(MarkWorking(s.devices, id), s.editor.(editingId := None))
  }

  /** `saveFaultDetails()`: with no device being edited (a null or empty
      `editingId`) nothing happens; otherwise only the edited device(s) get
      the modal's description and service flag, and the modal closes. */
  function SaveFaultDetails(s: ScanState): (r: ScanState)
    ensures !Truthy(s.editor.editingId) ==> r == s
    ensures Truthy(s.editor.editingId) ==>
      var id := s.editor.editingId.value;
      && r.editor == s.editor.(editingId := None)
      && |r.devices| == |s.devices|
      && (forall i :: 0 <= i < |r.devices| && s.devices[i].id == id ==>
            r.devices[i] == s.devices[i].(issueDescription := Some(s.editor.description),
                                          takenToService := Some(s.editor.takenToService)))
      && (forall i :: 0 <= i < |r.devices| && s.devices[i].id != id ==> r.devices[i] == s.devices[i])
  {
    if !Truthy(s.editor.editingId) then s
    else
      var id := s.editor.editingId.value;
      var devices := seq(|s.devices|, i requires 0 <= i < |s.devices| =>
        if s.devices[i].id == id
        then s.devices[i].(issueDescription := Some(s.editor.description),
                           takenToService := Some(s.editor.takenToService))
        else s.devices[i]);
      ScanState(devices, s.editor.(editingId := None))
  }

  /** Saved fault details do not outlive a later switch back to working:
      marking the device working afterwards gives the same list as marking it
      working without saving. */
  lemma SaveThenMarkWorkingForgetsDetails(s: ScanState)
    requires Truthy(s.editor.editingId)
    ensures var id := s.editor.editingId.value;
            MarkWorking(SaveFaultDetails(s).devices, id) == MarkWorking(s.devices, id)
  {
    var id := s.editor.editingId.value;
    var a := MarkWorking(SaveFaultDetails(s).devices, id);
    var b := MarkWorking(s.devices, id);
    assert |a| == |b|;
    forall i | 0 <= i < |a| ensures a[i] == b[i] {
    }
  }

  /** `cancelEdit()`: closes the modal and keeps the list. */
  function CancelEdit(s: ScanState): (r: ScanState)
    ensures r.devices == s.devices && r.editor.editingId.None?
  {
    s.(editor := s.editor.(editingId := None))
  }

  /** `removeDevice(id)`: `devices.filter(d => d.id !== id)`. */
  function RemoveDevice(devices: seq<Device>, id: string): (r: seq<Device>)
    ensures !HasId(r, id)
    ensures forall d :: d in r <==> d in devices && d.id != id
    ensures |r| <= |devices|
  {
    if |devices| == 0 then []
    else
      var rest := RemoveDevice(devices[1..], id);
      assert forall d :: d in devices <==> d == devices[0] || d in devices[1..] by {
        assert devices == [devices[0]] + devices[1..];
      }
      if devices[0].id == id then rest else [devices[0]] + rest
  }

  /** Removal keeps the survivors in their order: it distributes over
      concatenation. */
  lemma {:induction false} RemoveDeviceAppend(a: seq<Device>, b: seq<Device>, id: string)
    ensures RemoveDevice(a + b, id) == RemoveDevice(a, id) + RemoveDevice(b, id)
  {
    if |a| == 0 {
      assert a + b == b;
    } else {
      assert (a + b)[0] == a[0];
      assert (a + b)[1..] == a[1..] + b;
      RemoveDeviceAppend(a[1..], b, id);
    }
  }

  lemma HasIdTail(devices: seq<Device>, id: string)
    requires |devices| > 0
    ensures HasId(devices[1..], id) ==> HasId(devices, id)
  {
    if HasId(devices[1..], id) {
      var i :| 0 <= i < |devices[1..]| && devices[1..][i].id == id;
      assert devices[i + 1] == devices[1..][i];
    }
  }

  /** Removing an id no device has leaves the list as it is. */
  lemma {:induction false} RemoveAbsent(devices: seq<Device>, id: string)
    requires !HasId(devices, id)
    ensures RemoveDevice(devices, id) == devices
  {
    if |devices| > 0 {
      HasIdTail(devices, id);
      RemoveAbsent(devices[1..], id);
      assert devices == [devices[0]] + devices[1..];
    }
  }

  /** Removing a device just added under a fresh id gives back the list as
      it was before the scan. */
  lemma {:induction false} AddThenRemove(devices: seq<Device>, serial: string, id: string, now: int)
    requires !HasId(devices, id)
    ensures RemoveDevice(AddDevice(devices, serial, id, now), id) == devices
  {
    RemoveAbsent(devices, id);
    if !Text.AllWhitespace(serial) {
      var added := AddDevice(devices, serial, id, now);
      assert added == [added[0]] + devices;
      RemoveDeviceAppend([added[0]], devices, id);
    }
  }

  /** Two status clicks on a device that has no fault details restore it:
      the first marks it faulty and opens the modal, the second marks it
      working and closes the modal. */
  lemma {:induction false} DoubleClickRestores(s: ScanState, id: string)
    requires HasId(s.devices, id)
    requires forall i :: 0 <= i < |s.devices| && s.devices[i].id == id ==> Clean(s.devices[i])
    ensures StatusClick(StatusClick(s, id), id).devices == s.devices
    ensures StatusClick(StatusClick(s, id), id).editor.editingId.None?
  {
    var once := StatusClick(s, id);
    var d0 := Find(s.devices, id).value;
    assert d0.isWorking by {
      var i :| 0 <= i < |s.devices| && s.devices[i] == d0;
      assert Clean(s.devices[i]);
    }
    assert once.devices == MarkFaulty(s.devices, id);
    assert HasId(once.devices, id) by {
      var i :| 0 <= i < |s.devices| && s.devices[i].id == id;
      assert once.devices[i].id == id;
    }
    var d := Find(once.devices, id).value;
    assert !d.isWorking by {
      var i :| 0 <= i < |once.devices| && once.devices[i] == d;
      assert s.devices[i].id == id;
      assert once.devices[i] == s.devices[i].(isWorking := false);
    }
    var twice := StatusClick(once, id);
    assert twice.devices == MarkWorking(once.devices, id);
    forall i | 0 <= i < |s.devices|
      ensures twice.devices[i] == s.devices[i]
    {
      if s.devices[i].id == id {
        assert Clean(s.devices[i]);
        assert once.devices[i] == s.devices[i].(isWorking := false);
        assert twice.devices[i] == once.devices[i].(isWorking := true, issueDescription := None, takenToService := None);
      } else {
        assert once.devices[i] == s.devices[i];
        assert twice.devices[i] == once.devices[i];
      }
    }
  }
}
