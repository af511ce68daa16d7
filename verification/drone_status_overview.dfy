/**
 The dashboard drone cards of components/drone-status-overview.tsx. The
 component declares its own drone record and its own copies of the
 battery colour function and the "Assign Mission" condition; they are
 modelled from its own lines and shown to agree with the fleet page.
 */
module DroneStatusOverview {
  import Fleet = FleetManagement

  /** The component's `DroneStatus` record: the fleet record without flight hours, maintenance date or sensors. */
  datatype OverviewDrone = OverviewDrone(
    id: string,
    name: string,
    model: string,
    status: Fleet.DroneStatus,
    battery: real,
    location: string,
    lastActive: string,
    connection: Fleet.Connection)

  /** This component's `getBatteryColor`: exactly one band applies to every reading. */
  function BatteryColorOf(battery: real): (c: Fleet.BatteryColor)
    ensures c == Fleet.Green <==> battery > 70.0
    ensures c == Fleet.Yellow <==> 30.0 < battery <= 70.0
    ensures c == Fleet.Red <==> battery <= 30.0
  {
    if battery > 70.0 then Fleet.Green
    else if battery > 30.0 then Fleet.Yellow
    else Fleet.Red
  }

  /** The `disabled` condition of the card's "Assign Mission" button. */
  function AssignDisabled(d: OverviewDrone): (r: bool)
    ensures r <==> !(d.connection == Fleet.Online && (d.status == Fleet.Available || d.status == Fleet.Charging))
  {
    d.status == Fleet.InMission || d.status == Fleet.Maintenance || d.connection == Fleet.Offline
  }

  /** The fleet record a card shows, extended with the fields the card leaves out. */
  predicate SameDrone(d: OverviewDrone, f: Fleet.Drone) {
    && d.id == f.id && d.name == f.name && d.model == f.model && d.status == f.status
    && d.battery == f.battery && d.location == f.location && d.lastActive == f.lastActive
    && d.connection == f.connection
  }

  /**
   The dashboard and the fleet page colour the same drone alike and gate
   its assignment alike.
   */
  lemma AgreesWithFleet(d: OverviewDrone, f: Fleet.Drone)
    requires SameDrone(d, f)
    ensures BatteryColorOf(d.battery) == Fleet.BatteryColorOf(f.battery)
    ensures AssignDisabled(d) == Fleet.AssignDisabled(f.status, f.connection)
  {
  }
}
