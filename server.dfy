/** The database server: the four tables as fields updated in place by the
    MQTT message handler and by one pass of the liveness sweep. Each method
    is proved to produce exactly the state its specification function in
    Ingest or Sweep describes, and to keep the database invariant. */
module Server {
  import opened Schema
  import opened Ingest
  import opened Sweep

  class DatabaseServer {
    var pilots: map<string, string>
    var drones: seq<Drone>
    var sessions: seq<FlightSession>
    var samples: seq<DroneData>

    /** The tables as one value. */
    function State(): Db
      reads this
    {
      Db(pilots, drones, sessions, samples)
    }

    ghost predicate Valid()
      reads this
    {
      State().Valid()
    }

    /** `db.create_all()` on a new database: four empty tables. */
    constructor ()
      ensures Valid() && State() == Empty
    {
      pilots, drones, sessions, samples := map[], [], [], [];
    }

    /** The handler for one decoded telemetry message received at `now`. */
    method OnMessage(rec: Record, now: int) returns (outcome: Outcome)
      requires Valid()
      modifies this
      ensures Valid()
      ensures State() == Ingested(old(State()), rec, now).db
      ensures outcome == Ingested(old(State()), rec, now).outcome
    {
      ghost var db := State();
      IngestPreservesValid(db, rec, now);
      if !Complete(rec) {
        return Skipped;
      }
      var droneId, pilotId := rec.id.value, rec.pilotId.value;

      if pilotId !in pilots {
        pilots := pilots[pilotId := pilotId];
      }
      // The Drone table as of the last successful commit.
      var committed := drones;

      var found := FindDrone(drones, droneId);
      var di: nat;
      if found.None? {
        drones := drones + [Drone(droneId, Active, None, pilotId)];
        di := |drones| - 1;
        committed := drones;
      } else {
        di := found.value;
        drones := drones[di := drones[di].(status := Active, lastActive := Some(now), pilot := pilotId)];
      }

      var open := FindActiveSession(sessions, di);
      var si: nat;
      if open.None? {
        sessions := sessions + [FlightSession(di, now, None, true)];
        si := |sessions| - 1;
        committed := drones;
      } else {
        si := open.value;
      }

      if rec.barometerAltitude.None? || rec.speed.None? {
        // The sample violates NOT NULL: its commit fails and the
        // uncommitted drone refresh is rolled back.
        drones := committed;
        assert State() == Ingested(db, rec, now).db;
        return StoreError;
      }
      samples := samples + [DroneData(si, rec.latitude.value, rec.longitude.value, rec.altitude.value,
                                      rec.barometerAltitude.value, rec.speed.value, now)];
      assert State() == Ingested(db, rec, now).db;
      return Saved;
    }

    /** One pass of the liveness sweep at `now`. */
    method DeactivateInactiveDrones(now: int)
      requires Valid()
      modifies this
      ensures Valid()
      ensures State() == Swept(old(State()), now)
    {
      ghost var db := State();
      SweepPreservesValid(db, now);
      var i := 0;
      while i < |drones|
        invariant 0 <= i <= |drones| == |db.drones|
        invariant pilots == db.pilots && samples == db.samples
        invariant forall j :: 0 <= j < i ==> drones[j] == Marked(db.drones[j], now)
        invariant forall j :: i <= j < |drones| ==> drones[j] == db.drones[j]
        invariant |sessions| == |db.sessions|
        invariant forall k :: 0 <= k < |sessions| ==>
          sessions[k] == if db.sessions[k].drone < i then Closed(db.drones, db.sessions[k], now) else db.sessions[k]
      {
        if Stale(drones[i], now) {
          drones := drones[i := drones[i].(status := Inactive)];
          var open := FindActiveSession(sessions, i);
          if open.Some? {
            ActiveSessionUnique(db, i, open.value);
            sessions := sessions[open.value := sessions[open.value].(end := Some(now), active := false)];
          }
        }
        i := i + 1;
      }
      assert drones == Swept(db, now).drones;
      assert sessions == Swept(db, now).sessions;
    }
  }
}
