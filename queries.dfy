/** The two read-only REST queries over the same tables: the active drones
    with their latest reading (`/api/active_drones`) and a drone's flight
    history (`/api/history/<drone_id>`). */
module Queries {
  import opened Schema
  import opened Ingest
  import opened Sweep

  /** One element of the active-drones response. */
  datatype ActiveDrone = ActiveDrone(
    id: string, pilot: string,
    latitude: Number, longitude: Number, altitude: Number, speed: Number)

  /** Sample `n` belongs to an open session of drone `i`. */
  predicate InOpenSession(db: Db, n: nat, i: nat)
    requires n < |db.samples|
  {
    var k := db.samples[n].session;
    k < |db.sessions| && db.sessions[k].drone == i && db.sessions[k].active
  }

  /** The latest sample (largest timestamp; among equal timestamps the one
      stored last) among the first `n` samples that lie in an open session
      of drone `i`. */
  function LatestSample(db: Db, i: nat, n: nat): (r: Option<nat>)
    requires n <= |db.samples|
    ensures r.Some? ==> r.value < n && InOpenSession(db, r.value, i)
    ensures r.Some? ==> forall m :: 0 <= m < n && InOpenSession(db, m, i) ==>
      db.samples[m].timestamp <= db.samples[r.value].timestamp
    ensures r.Some? ==> forall m :: r.value < m < n && InOpenSession(db, m, i) ==>
      db.samples[m].timestamp < db.samples[r.value].timestamp
    ensures r.None? <==> forall m :: 0 <= m < n ==> !InOpenSession(db, m, i)
  {
    if n == 0 then None
    else
      var prev := LatestSample(db, i, n - 1);
      if InOpenSession(db, n - 1, i)
         && (prev.None? || db.samples[prev.value].timestamp <= db.samples[n - 1].timestamp)
      then Some(n - 1)
      else prev
  }

  /** Drone `i` is listed: it is marked active and has a sample in an open session. */
  predicate Listed(db: Db, i: nat)
    requires i < |db.drones|
  {
    db.drones[i].status == Active && LatestSample(db, i, |db.samples|).Some?
  }

  /** `drone.pilot.name if drone.pilot else "Unknown"`. */
  function PilotName(db: Db, d: Drone): string {
    if d.pilot in db.pilots then db.pilots[d.pilot] else "Unknown"
  }

  /** The response entry for a listed drone: its id, pilot name and latest reading. */
  function Entry(db: Db, i: nat): ActiveDrone
    requires i < |db.drones| && Listed(db, i)
  {
    var s := db.samples[LatestSample(db, i, |db.samples|).value];
    ActiveDrone(db.drones[i].droneId, PilotName(db, db.drones[i]), s.latitude, s.longitude, s.altitude, s.speed)
  }

  /** The entries for the listed drones among the first `n`, in table order. */
  function ActiveDronesUpTo(db: Db, n: nat): (r: seq<ActiveDrone>)
    requires n <= |db.drones|
    ensures |r| <= n
    ensures forall e :: e in r ==> exists i :: 0 <= i < n && Listed(db, i) && e == Entry(db, i)
    ensures forall i :: 0 <= i < n && Listed(db, i) ==> Entry(db, i) in r
  {
    if n == 0 then []
    else
      ActiveDronesUpTo(db, n - 1) + (if Listed(db, n - 1) then [Entry(db, n - 1)] else [])
  }

  /** `/api/active_drones`: every drone marked active that has a sample in
      an open session, with its latest sample; nothing else. */
  function ActiveDrones(db: Db): (r: seq<ActiveDrone>)
    ensures |r| <= |db.drones|
    ensures forall e :: e in r ==> exists i :: 0 <= i < |db.drones| && Listed(db, i) && e == Entry(db, i)
    ensures forall i :: 0 <= i < |db.drones| && Listed(db, i) ==> Entry(db, i) in r
  {
    ActiveDronesUpTo(db, |db.drones|)
  }

  /** One reading in a history response. */
  datatype SampleView = SampleView(
    latitude: Number, longitude: Number, altitude: Number,
    barometerAltitude: Number, speed: Number, timestamp: int)

  /** One session in a history response. */
  datatype SessionView = SessionView(start: int, end: Option<int>, data: seq<SampleView>)

  /** The history response: 404 or the drone's sessions. */
  datatype HistoryResponse = NotFound | History(droneId: string, history: seq<SessionView>)

  function View(s: DroneData): SampleView {
    SampleView(s.latitude, s.longitude, s.altitude, s.barometerAltitude, s.speed, s.timestamp)
  }

  /** The readings of session `k`, in the order they were stored. */
  function SamplesOf(samples: seq<DroneData>, k: nat): (r: seq<SampleView>)
    ensures |r| <= |samples|
    ensures forall v :: v in r ==> exists n :: 0 <= n < |samples| && samples[n].session == k && v == View(samples[n])
    ensures forall n :: 0 <= n < |samples| && samples[n].session == k ==> View(samples[n]) in r
  {
    if |samples| == 0 then []
    else
      var last := samples[|samples| - 1];
      var prefix := SamplesOf(samples[..|samples| - 1], k);
      assert forall n :: 0 <= n < |samples| - 1 ==> samples[..|samples| - 1][n] == samples[n];
      prefix + (if last.session == k then [View(last)] else [])
  }

  /** The views of the sessions of drone `i` among the first `n` sessions, in id order. */
  function SessionsOf(db: Db, i: nat, n: nat): (r: seq<SessionView>)
    requires n <= |db.sessions|
    ensures |r| <= n
    ensures forall k :: 0 <= k < n && db.sessions[k].drone == i ==>
      SessionView(db.sessions[k].start, db.sessions[k].end, SamplesOf(db.samples, k)) in r
    ensures forall v :: v in r ==>
      exists k :: 0 <= k < n && db.sessions[k].drone == i &&
        v == SessionView(db.sessions[k].start, db.sessions[k].end, SamplesOf(db.samples, k))
  {
    if n == 0 then []
    else
      var s := db.sessions[n - 1];
      SessionsOf(db, i, n - 1)
        + (if s.drone == i then [SessionView(s.start, s.end, SamplesOf(db.samples, n - 1))] else [])
  }

  /** `/api/history/<drone_id>`: 404 for an unknown drone, otherwise every
      session of the drone with all its readings. */
  function FlightHistory(db: Db, d: string): (r: HistoryResponse)
    ensures r.NotFound? <==> forall j :: 0 <= j < |db.drones| ==> db.drones[j].droneId != d
    ensures r.History? ==> r.droneId == d
    ensures r.History? ==>
      exists i :: 0 <= i < |db.drones| && db.drones[i].droneId == d &&
        r.history == SessionsOf(db, i, |db.sessions|)
  {
    match FindDrone(db.drones, d)
    case None => NotFound
    case Some(i) => History(d, SessionsOf(db, i, |db.sessions|))
  }

  /** Before any data the active list is empty; after the first stored
      message into an empty database it holds exactly that drone, with its
      pilot's name and the message's reading. */
  lemma ActiveAfterFirstReport(rec: Record, now: int)
    requires Complete(rec) && Insertable(rec)
    ensures ActiveDrones(Empty) == []
    ensures ActiveDrones(Ingested(Empty, rec, now).db) ==
      [ActiveDrone(rec.id.value, rec.pilotId.value,
                   rec.latitude.value, rec.longitude.value, rec.altitude.value, rec.speed.value)]
  {
  }

  /** A drone the sweep finds stale is no longer listed as active. */
  lemma SweptDroneNotListed(db: Db, now: int, i: nat)
    requires i < |db.drones| && Stale(db.drones[i], now)
    ensures !Listed(Swept(db, now), i)
  {
  }

  /** A stored message adds its reading at the end of its session's history
      and leaves the readings of every other session as they were. */
  lemma HistoryGrowsByStoredSample(db: Db, rec: Record, now: int, k: nat)
    requires Complete(rec) && Insertable(rec)
    ensures var r := Ingested(db, rec, now).db; var x := r.samples[|db.samples|];
      && (k == x.session ==> SamplesOf(r.samples, k) == SamplesOf(db.samples, k) + [View(x)])
      && (k != x.session ==> SamplesOf(r.samples, k) == SamplesOf(db.samples, k))
  {
  }
}
