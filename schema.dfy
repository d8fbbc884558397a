/** The four tables of the drone telemetry database (Pilot, Drone,
    FlightSession, DroneData) as values, the integrity constraints the
    ingestion path and the liveness sweep keep, and the two lookups both
    of them perform.

    Row identifiers are positions: the row with SQLite rowid n sits at
    position n - 1 of its table. Rows are never deleted, so an appended
    row always gets the next free position, exactly as an auto-increment
    key does. Times are whole seconds. */
module Schema {

  datatype Option<T> = None | Some(value: T)

  /** A decoded JSON number (latitude, longitude, ...). It is stored and
      returned, never computed on. */
  type Number = real

  /** Seconds of silence after which a drone is considered inactive. */
  const StaleAfter: int := 10

  datatype Status = Active | Inactive

  /** A row of the Drone table. `droneId` is the unique external id;
      `pilot` is the id of the owning Pilot row. */
  datatype Drone = Drone(droneId: string, status: Status, lastActive: Option<int>, pilot: string)

  /** A row of the FlightSession table; `drone` is the position of its Drone row. */
  datatype FlightSession = FlightSession(drone: nat, start: int, end: Option<int>, active: bool)

  /** A row of the DroneData table; `session` is the position of its FlightSession row.
      All five readings are non-null columns. */
  datatype DroneData = DroneData(
    session: nat,
    latitude: Number, longitude: Number, altitude: Number,
    barometerAltitude: Number, speed: Number,
    timestamp: int)

  /** The whole database: Pilot rows keyed by pilot id (the value is the
      pilot's name) and the other three tables in rowid order. */
  datatype Db = Db(
    pilots: map<string, string>,
    drones: seq<Drone>,
    sessions: seq<FlightSession>,
    samples: seq<DroneData>)
  {
    /** The unique constraint on Drone.drone_id. */
    ghost predicate UniqueDroneIds() {
      forall i, j :: 0 <= i < j < |drones| ==> drones[i].droneId != drones[j].droneId
    }

    /** Every foreign key points at an existing row. */
    ghost predicate Linked() {
      && (forall i :: 0 <= i < |drones| ==> drones[i].pilot in pilots)
      && (forall k :: 0 <= k < |sessions| ==> sessions[k].drone < |drones|)
      && (forall n :: 0 <= n < |samples| ==> samples[n].session < |sessions|)
    }

    /** A session has an end time exactly when it has been closed. */
    ghost predicate EndMarksClosed() {
      forall k :: 0 <= k < |sessions| ==> (sessions[k].active <==> sessions[k].end.None?)
    }

    /** At most one FlightSession per drone has is_active set. */
    ghost predicate AtMostOneActive() {
      forall k, l :: 0 <= k < l < |sessions| && sessions[k].active && sessions[l].active ==>
        sessions[k].drone != sessions[l].drone
    }

    /** A drone is marked active exactly when it has an open session. */
    ghost predicate StatusTracksSession() {
      forall i :: 0 <= i < |drones| ==> (drones[i].status == Active <==> HasActiveSession(sessions, i))
    }

    /** The invariant of every database state reachable from the empty one. */
    ghost predicate Valid() {
      UniqueDroneIds() && Linked() && EndMarksClosed() && AtMostOneActive() && StatusTracksSession()
    }
  }

  const Empty: Db := Db(map[], [], [], [])

  ghost predicate HasActiveSession(sessions: seq<FlightSession>, drone: nat) {
    exists k :: 0 <= k < |sessions| && sessions[k].drone == drone && sessions[k].active
  }

  /** `Drone.query.filter_by(drone_id=d).first()`: the first Drone row with
      external id `d`, if any. */
  function FindDrone(drones: seq<Drone>, d: string): (r: Option<nat>)
    ensures r.Some? ==> r.value < |drones| && drones[r.value].droneId == d
    ensures r.Some? ==> forall j :: 0 <= j < r.value ==> drones[j].droneId != d
    ensures r.None? <==> forall j :: 0 <= j < |drones| ==> drones[j].droneId != d
  {
    if |drones| == 0 then None
    else if drones[0].droneId == d then Some(0)
    else match FindDrone(drones[1..], d)
      case None => None
      case Some(k) => Some(k + 1)
  }

  /** `FlightSession.query.filter_by(drone_id=drone, is_active=True).first()`:
      the first open session of a drone, if any. */
  function FindActiveSession(sessions: seq<FlightSession>, drone: nat): (r: Option<nat>)
    ensures r.Some? ==> r.value < |sessions| && sessions[r.value].drone == drone && sessions[r.value].active
    ensures r.Some? ==> forall k :: 0 <= k < r.value ==> !(sessions[k].drone == drone && sessions[k].active)
    ensures r.None? <==> !HasActiveSession(sessions, drone)
  {
    if |sessions| == 0 then None
    else if sessions[0].drone == drone && sessions[0].active then Some(0)
    else match FindActiveSession(sessions[1..], drone)
      case None =>
        assert forall k :: 1 <= k < |sessions| ==> sessions[k] == sessions[1..][k - 1];
        None
      case Some(k) => Some(k + 1)
  }

  /** The sweep's staleness test: `last_active` is set and more than
      `StaleAfter` seconds before `now`. */
  predicate Stale(d: Drone, now: int) {
    d.lastActive.Some? && now - d.lastActive.value > StaleAfter
  }

  /** In a valid database the open session of a drone is the only one. */
  lemma ActiveSessionUnique(db: Db, drone: nat, k: nat)
    requires db.Valid()
    requires k < |db.sessions| && db.sessions[k].drone == drone && db.sessions[k].active
    ensures FindActiveSession(db.sessions, drone) == Some(k)
  {
  }
}
