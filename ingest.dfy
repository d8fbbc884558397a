/** The ingestion path of the MQTT message handler (`on_message`) as a
    function from the database and one decoded message to the new
    database, with the properties it keeps.

    The handler commits in four places: after creating a pilot, after
    creating a drone, after opening a session and after adding the sample.
    A message without `barometer_altitude` or `speed` passes validation but
    violates the NOT NULL constraint of DroneData, so the last commit fails:
    what the first three commits wrote stays, and the uncommitted refresh of
    an existing drone (status, last_active, pilot) is rolled back unless the
    commit that started a session already carried it. */
module Ingest {
  import opened Schema

  /** A decoded telemetry message: every field may be absent (JSON null or missing). */
  datatype Record = Record(
    id: Option<string>,
    pilotId: Option<string>,
    latitude: Option<Number>,
    longitude: Option<Number>,
    altitude: Option<Number>,
    barometerAltitude: Option<Number>,
    speed: Option<Number>)

  /** What the handler reports for a message. */
  datatype Outcome =
    | Skipped      // incomplete data, nothing written
    | Saved        // sample stored
    | StoreError   // the sample insert failed; earlier commits stand

  /** Python truthiness of an optional string: absent and "" are false. */
  predicate Truthy(s: Option<string>) {
    s.Some? && s.value != ""
  }

  /** The handler's completeness test: id and pilot_id must be truthy, the
      three coordinates only present (a coordinate of 0 is accepted). */
  predicate Complete(rec: Record) {
    Truthy(rec.id) && Truthy(rec.pilotId)
    && rec.latitude.Some? && rec.longitude.Some? && rec.altitude.Some?
  }

  /** Both non-null readings the sample row needs but validation does not check. */
  predicate Insertable(rec: Record) {
    rec.barometerAltitude.Some? && rec.speed.Some?
  }

  /** Find the pilot by id, creating it with its id as name if absent. */
  function UpsertPilot(pilots: map<string, string>, p: string): (r: map<string, string>)
    ensures r.Keys == pilots.Keys + {p}
    ensures r[p] == if p in pilots then pilots[p] else p
    ensures forall q :: q in pilots ==> r[q] == pilots[q]
  {
    if p in pilots then pilots else pilots[p := p]
  }

  /** An existing drone reporting again: active, seen now, owned by `p`. */
  function Refreshed(d: Drone, p: string, now: int): Drone {
    d.(status := Active, lastActive := Some(now), pilot := p)
  }

  datatype IngestResult = IngestResult(db: Db, outcome: Outcome)

  /** The effect of one message on the database. */
  function Ingested(db: Db, rec: Record, now: int): (r: IngestResult)
    ensures r.outcome == Skipped <==> !Complete(rec)
    ensures r.outcome == StoreError <==> Complete(rec) && !Insertable(rec)
    ensures r.outcome == Skipped ==> r.db == db
    ensures r.outcome == Saved ==> |r.db.samples| == |db.samples| + 1
    ensures r.outcome != Saved ==> r.db.samples == db.samples
  {
    if !Complete(rec) then IngestResult(db, Skipped)
    else
      var d, p := rec.id.value, rec.pilotId.value;
      var pilots := UpsertPilot(db.pilots, p);
      var found := FindDrone(db.drones, d);
      var di := if found.Some? then found.value else |db.drones|;
      var drones :=
        if found.Some? then db.drones[di := Refreshed(db.drones[di], p, now)]
        else db.drones + [Drone(d, Active, None, p)];
      var open := FindActiveSession(db.sessions, di);
      var si := if open.Some? then open.value else |db.sessions|;
      var sessions :=
        if open.Some? then db.sessions
        else db.sessions + [FlightSession(di, now, None, true)];
      if Insertable(rec) then
        var sample := DroneData(si, rec.latitude.value, rec.longitude.value, rec.altitude.value,
                                rec.barometerAltitude.value, rec.speed.value, now);
        IngestResult(Db(pilots, drones, sessions, db.samples + [sample]), Saved)
      else
        // Only an existing drone whose session was already open reaches the
        // failing commit with its refresh still uncommitted.
        var kept := if found.Some? && open.Some? then db.drones else drones;
        IngestResult(Db(pilots, kept, sessions, db.samples), StoreError)
  }

  /** The position of the drone a complete message names, after ingestion. */
  function DroneIndex(db: Db, d: string): nat {
    var found := FindDrone(db.drones, d);
    if found.Some? then found.value else |db.drones|
  }

  /** Upserting the same pilot twice is the same as once. */
  lemma UpsertPilotIdempotent(pilots: map<string, string>, p: string)
    ensures UpsertPilot(UpsertPilot(pilots, p), p) == UpsertPilot(pilots, p)
  {
  }

  /** After a message with pilot `p` is accepted, pilot `p` exists once; a new
      one is named `p`, an existing one keeps its name, no other pilot changes. */
  lemma IngestUpsertsPilot(db: Db, rec: Record, now: int)
    requires db.Valid() && Complete(rec)
    ensures var r := Ingested(db, rec, now).db; var p := rec.pilotId.value;
      && r.pilots.Keys == db.pilots.Keys + {p}
      && r.pilots[p] == (if p in db.pilots then db.pilots[p] else p)
      && forall q :: q in db.pilots ==> r.pilots[q] == db.pilots[q]
  {
  }

  /** After a stored message for drone `d` there is exactly one drone `d`,
      active and owned by the message's pilot; a new drone has no
      last_active, an existing one was seen now; no other drone changes. */
  lemma IngestUpsertsDrone(db: Db, rec: Record, now: int)
    requires db.Valid() && Complete(rec) && Insertable(rec)
    ensures var r := Ingested(db, rec, now).db; var d := rec.id.value; var i := DroneIndex(db, d);
      && i < |r.drones|
      && r.drones[i].droneId == d
      && r.drones[i].status == Active
      && r.drones[i].pilot == rec.pilotId.value
      && (FindDrone(db.drones, d).None? ==> i == |db.drones| && r.drones[i].lastActive == None)
      && (FindDrone(db.drones, d).Some? ==> r.drones[i].lastActive == Some(now))
      && (forall j :: 0 <= j < |r.drones| && j != i ==> r.drones[j].droneId != d)
      && |r.drones| == |db.drones| + (if FindDrone(db.drones, d).None? then 1 else 0)
      && (forall j :: 0 <= j < |db.drones| && j != i ==> r.drones[j] == db.drones[j])
  {
  }

  /** An accepted message reuses the drone's open session if it has one;
      otherwise it opens exactly one, active, without end time, started
      now. Existing sessions are never modified. */
  lemma IngestSession(db: Db, rec: Record, now: int)
    requires db.Valid() && Complete(rec)
    ensures var r := Ingested(db, rec, now).db; var i := DroneIndex(db, rec.id.value);
      && (HasActiveSession(db.sessions, i) ==> r.sessions == db.sessions)
      && (!HasActiveSession(db.sessions, i) ==>
            r.sessions == db.sessions + [FlightSession(i, now, None, true)])
  {
  }

  /** A stored message appends exactly one sample, carrying the message's
      readings and attached to its drone's open session; every earlier
      sample and every earlier session is unchanged. */
  lemma IngestAppendsSample(db: Db, rec: Record, now: int)
    requires db.Valid() && Complete(rec) && Insertable(rec)
    ensures var r := Ingested(db, rec, now).db; var i := DroneIndex(db, rec.id.value);
      && FindActiveSession(r.sessions, i).Some?
      && r.samples == db.samples + [DroneData(
           FindActiveSession(r.sessions, i).value,
           rec.latitude.value, rec.longitude.value, rec.altitude.value,
           rec.barometerAltitude.value, rec.speed.value, now)]
      && r.sessions[..|db.sessions|] == db.sessions
  {
    var i := DroneIndex(db, rec.id.value);
    if !HasActiveSession(db.sessions, i) {
      ActiveSessionUniqueAfterOpen(db, i, now);
    }
  }

  /** Opening a session for a drone with none open makes it the drone's open session. */
  lemma ActiveSessionUniqueAfterOpen(db: Db, i: nat, now: int)
    requires db.Valid() && !HasActiveSession(db.sessions, i)
    ensures FindActiveSession(db.sessions + [FlightSession(i, now, None, true)], i) == Some(|db.sessions|)
  {
    var s := db.sessions + [FlightSession(i, now, None, true)];
    assert s[|db.sessions|].drone == i && s[|db.sessions|].active;
  }

  /** A message missing a non-null reading stores no sample, yet the pilot,
      a new drone and a newly started session are committed; an existing
      drone's refresh survives only together with a new session. */
  lemma IngestStoreError(db: Db, rec: Record, now: int)
    requires db.Valid() && Complete(rec) && !Insertable(rec)
    ensures var r := Ingested(db, rec, now).db; var d := rec.id.value; var i := DroneIndex(db, d);
      && r.samples == db.samples
      && r.pilots == UpsertPilot(db.pilots, rec.pilotId.value)
      && (FindDrone(db.drones, d).None? ==>
            r.drones == db.drones + [Drone(d, Active, None, rec.pilotId.value)]
            && r.sessions == db.sessions + [FlightSession(i, now, None, true)])
      && (FindDrone(db.drones, d).Some? && HasActiveSession(db.sessions, i) ==>
            r.drones == db.drones && r.sessions == db.sessions)
      && (FindDrone(db.drones, d).Some? && !HasActiveSession(db.sessions, i) ==>
            r.drones == db.drones[i := Refreshed(db.drones[i], rec.pilotId.value, now)]
            && r.sessions == db.sessions + [FlightSession(i, now, None, true)])
  {
  }

  /** Appending a session for drone `i` leaves every other drone's open
      sessions as they were. */
  lemma HasActiveSessionAppend(sessions: seq<FlightSession>, x: FlightSession, j: nat)
    ensures HasActiveSession(sessions + [x], j) <==>
      HasActiveSession(sessions, j) || (x.drone == j && x.active)
  {
    var s := sessions + [x];
    if HasActiveSession(s, j) && !(x.drone == j && x.active) {
      var k :| 0 <= k < |s| && s[k].drone == j && s[k].active;
      assert k < |sessions| && sessions[k] == s[k];
    }
    if HasActiveSession(sessions, j) {
      var k :| 0 <= k < |sessions| && sessions[k].drone == j && sessions[k].active;
      assert s[k] == sessions[k];
    }
    if x.drone == j && x.active {
      assert s[|sessions|] == x;
    }
  }

  /** Ingestion keeps every integrity constraint: unique drone ids, linked
      rows, at most one open session per drone, and drone status in step
      with its open session. */
  lemma IngestPreservesValid(db: Db, rec: Record, now: int)
    requires db.Valid()
    ensures Ingested(db, rec, now).db.Valid()
  {
    if Complete(rec) {
      IngestKeepsIdsUnique(db, rec, now);
      IngestKeepsLinks(db, rec, now);
      IngestKeepsSessionsConsistent(db, rec, now);
      IngestKeepsStatus(db, rec, now);
    }
  }

  lemma IngestKeepsIdsUnique(db: Db, rec: Record, now: int)
    requires db.Valid() && Complete(rec)
    ensures Ingested(db, rec, now).db.UniqueDroneIds()
  {
  }

  lemma IngestKeepsLinks(db: Db, rec: Record, now: int)
    requires db.Valid() && Complete(rec)
    ensures Ingested(db, rec, now).db.Linked()
  {
    var r := Ingested(db, rec, now).db;
    var i := DroneIndex(db, rec.id.value);
    assert |db.drones| <= |r.drones| && i < |r.drones|;
    assert forall j :: 0 <= j < |r.drones| ==> r.drones[j].pilot in r.pilots by {
      forall j | 0 <= j < |r.drones| ensures r.drones[j].pilot in r.pilots {
        if j != i { assert r.drones[j] == db.drones[j]; }
      }
    }
    IngestSession(db, rec, now);
  }

  lemma IngestKeepsSessionsConsistent(db: Db, rec: Record, now: int)
    requires db.Valid() && Complete(rec)
    ensures Ingested(db, rec, now).db.EndMarksClosed()
    ensures Ingested(db, rec, now).db.AtMostOneActive()
  {
    var r := Ingested(db, rec, now).db;
    var i := DroneIndex(db, rec.id.value);
    IngestSession(db, rec, now);
    if !HasActiveSession(db.sessions, i) {
      forall k, l | 0 <= k < l < |r.sessions| && r.sessions[k].active && r.sessions[l].active
        ensures r.sessions[k].drone != r.sessions[l].drone
      {
        if l == |db.sessions| {
          assert r.sessions[k] == db.sessions[k];
        }
      }
    }
  }

  lemma IngestKeepsStatus(db: Db, rec: Record, now: int)
    requires db.Valid() && Complete(rec)
    ensures Ingested(db, rec, now).db.StatusTracksSession()
  {
    var r := Ingested(db, rec, now).db;
    var i := DroneIndex(db, rec.id.value);
    var started := FlightSession(i, now, None, true);
    IngestSession(db, rec, now);
    forall j | 0 <= j < |r.drones|
      ensures r.drones[j].status == Active <==> HasActiveSession(r.sessions, j)
    {
      if !HasActiveSession(db.sessions, i) {
        HasActiveSessionAppend(db.sessions, started, j);
      }
      if j != i {
        assert r.drones[j] == db.drones[j];
      }
    }
  }

  /** A message for a drone with no open session (for instance one the sweep
      closed) opens a new session under a fresh id; the closed sessions keep
      their end time and stay closed. */
  lemma ReopenAfterClose(db: Db, rec: Record, now: int)
    requires db.Valid() && Complete(rec)
    requires FindDrone(db.drones, rec.id.value).Some?
    requires !HasActiveSession(db.sessions, FindDrone(db.drones, rec.id.value).value)
    ensures var r := Ingested(db, rec, now).db; var i := FindDrone(db.drones, rec.id.value).value;
      && |r.sessions| == |db.sessions| + 1
      && r.sessions[|db.sessions|] == FlightSession(i, now, None, true)
      && (forall k :: 0 <= k < |db.sessions| ==> r.sessions[k] == db.sessions[k])
      && (Insertable(rec) ==> r.samples[|db.samples|].session == |db.sessions|)
  {
  }
}
