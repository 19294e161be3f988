/**
 * The admin device-management page: its own list of devices, whose status the page's
 * toggle button flips between `Online` and `Maintenance`.
 */
module AdminDevices {
  import opened Wrappers
  import opened MockData

  /** A row of the page's list. The type is a free string here (`'Xbox'` among them). */
  datatype AdminDevice = AdminDevice(
    id: string, name: string, deviceType: string, status: DeviceStatus,
    currentSession: Option<string>)

  const InitialAdminDevices: seq<AdminDevice> := [
    AdminDevice("pc-01", "RTX 4090 Station 01", "PC", Online, None),
    AdminDevice("pc-02", "RTX 4090 Station 02", "PC", Occupied, Some("Rahul K. (2h left)")),
    AdminDevice("ps5-01", "PlayStation 5 #01", "PS5", Online, None),
    AdminDevice("ps5-02", "PlayStation 5 #02", "PS5", Maintenance, None),
    AdminDevice("xb-01", "Xbox Series X #01", "Xbox", Online, None)
  ]

  /** `d.status === 'Online' ? 'Maintenance' : 'Online'` */
  function ToggledStatus(s: DeviceStatus): (t: DeviceStatus)
    ensures t == Maintenance <==> s == Online
    ensures t == Online <==> s != Online
  {
    if s == Online then Maintenance else Online
  }

  /** Toggling twice restores `Online` and `Maintenance`; any other status ends up as
      `Maintenance`. */
  lemma ToggleTwice(s: DeviceStatus)
    ensures s == Online || s == Maintenance <==> ToggledStatus(ToggledStatus(s)) == s
  {
  }

  /** `devices.map(d => d.id === id ? { ...d, status: … } : d)` */
  function Toggled(devices: seq<AdminDevice>, id: string): (r: seq<AdminDevice>)
    ensures |r| == |devices|
    ensures forall k :: 0 <= k < |r| ==>
      r[k] == if devices[k].id == id then devices[k].(status := ToggledStatus(devices[k].status))
              else devices[k]
    decreases |devices|
  {
    if devices == [] then []
    else
      [if devices[0].id == id then devices[0].(status := ToggledStatus(devices[0].status)) else devices[0]]
      + Toggled(devices[1..], id)
  }

  /** Toggling only ever changes statuses: ids, names, types and sessions stay. */
  lemma ToggledKeepsAllButStatus(devices: seq<AdminDevice>, id: string, k: nat)
    requires k < |devices|
    ensures var d := Toggled(devices, id)[k];
      d.id == devices[k].id && d.name == devices[k].name &&
      d.deviceType == devices[k].deviceType && d.currentSession == devices[k].currentSession
  {
  }

  /** Toggling the same device twice restores the list when its rows are `Online` or
      `Maintenance`. */
  lemma ToggledTwiceRestores(devices: seq<AdminDevice>, id: string)
    requires forall k :: 0 <= k < |devices| && devices[k].id == id ==>
      devices[k].status == Online || devices[k].status == Maintenance
    ensures Toggled(Toggled(devices, id), id) == devices
  {
    var r := Toggled(Toggled(devices, id), id);
    forall k | 0 <= k < |devices| ensures r[k] == devices[k] {
      if devices[k].id == id {
        ToggleTwice(devices[k].status);
      }
    }
  }

  /** The label of the toggle button of a row, or None when `status !== 'Occupied'` fails
      and no button is offered. An `Online` row's button reads `Set Offline` although
      pressing it sets `Maintenance`. */
  function ToggleButton(d: AdminDevice): (button: Option<string>)
    ensures button.None? <==> d.status == Occupied
  {
    if d.status == Occupied then None
    else if d.status == Online then Some("Set Offline")
    else Some("Set Online")
  }

  /** The button labelled `Set Offline` never sets `Offline`. */
  lemma OfflineLabelSetsMaintenance(d: AdminDevice)
    requires ToggleButton(d) == Some("Set Offline")
    ensures ToggledStatus(d.status) == Maintenance
  {
  }

  /** No two rows share an id. */
  predicate DistinctIds(devices: seq<AdminDevice>) {
    forall i, j :: 0 <= i < j < |devices| ==> devices[i].id != devices[j].id
  }

  /** The page's state list. */
  class DevicesPage {
    var devices: seq<AdminDevice>

    predicate Valid()
      reads this
    {
      DistinctIds(devices)
    }

    constructor ()
      ensures devices == InitialAdminDevices && Valid()
    {
      devices := InitialAdminDevices;
    }

    /** toggleStatus */
    method ToggleStatus(id: string)
      requires Valid()
      modifies this
      ensures devices == Toggled(old(devices), id)
      ensures Valid()
    {
      devices := Toggled(devices, id);
    }

    /** Pressing the toggle button of row k: there is a button only when the row is not
        `Occupied`, and it toggles the device with that row's id. With distinct ids no
        `Occupied` device ever changes through the page. */
    method PressToggle(k: nat)
      requires Valid() && k < |devices|
      modifies this
      ensures ToggleButton(old(devices)[k]).None? ==> devices == old(devices)
      ensures ToggleButton(old(devices)[k]).Some? ==> devices == Toggled(old(devices), old(devices)[k].id)
      ensures forall j :: 0 <= j < |old(devices)| && old(devices)[j].status == Occupied ==>
                devices[j] == old(devices)[j]
      ensures |devices| == |old(devices)| && Valid()
    {
      if devices[k].status != Occupied {
        ToggleStatus(devices[k].id);
      }
    }
  }
}
