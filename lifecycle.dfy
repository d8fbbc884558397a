/** How ingestion and the liveness sweep interact over a drone's life:
    when a session closes, why a drone seen only once never closes, and
    how a closed session is followed by a new one. */
module Lifecycle {
  import opened Schema
  import opened Ingest
  import opened Sweep

  /** A drone created by its first message has no last_active, so no sweep
      pass, however late, closes its session or marks it inactive. */
  lemma FirstMessageNeverSwept(db: Db, rec: Record, now: int, later: int)
    requires db.Valid() && Complete(rec)
    requires FindDrone(db.drones, rec.id.value).None?
    ensures var r := Swept(Ingested(db, rec, now).db, later); var i := |db.drones|;
      && i < |r.drones|
      && r.drones[i].status == Active
      && HasActiveSession(r.sessions, i)
  {
    var s := Ingested(db, rec, now).db;
    IngestPreservesValid(db, rec, now);
    IngestSession(db, rec, now);
    SweepEffect(s, later);
    assert s.drones[|db.drones|].lastActive == None;
    assert s.sessions[|db.sessions|].drone == |db.drones| && s.sessions[|db.sessions|].active;
  }

  /** A drone that already existed and whose report at `t0` is stored is afterwards active,
      seen at `t0`, and has an open session. */
  lemma ReportRefreshes(db: Db, rec: Record, t0: int)
    requires db.Valid() && Complete(rec) && Insertable(rec)
    requires FindDrone(db.drones, rec.id.value).Some?
    ensures var s := Ingested(db, rec, t0).db; var i := FindDrone(db.drones, rec.id.value).value;
      && s.Valid()
      && i < |s.drones|
      && s.drones[i].lastActive == Some(t0)
      && HasActiveSession(s.sessions, i)
  {
    var s := Ingested(db, rec, t0).db;
    var i := FindDrone(db.drones, rec.id.value).value;
    IngestPreservesValid(db, rec, t0);
    IngestSession(db, rec, t0);
    if HasActiveSession(db.sessions, i) {
      var k :| 0 <= k < |db.sessions| && db.sessions[k].drone == i && db.sessions[k].active;
      assert s.sessions[k] == db.sessions[k];
    } else {
      assert s.sessions[|db.sessions|].drone == i && s.sessions[|db.sessions|].active;
    }
  }

  /** After a stored report at `t0` from a drone that already existed, a sweep pass at
      `now` closes its session and marks it inactive exactly when more than
      `StaleAfter` seconds have passed. */
  lemma SilenceClosesSession(db: Db, rec: Record, t0: int, now: int)
    requires db.Valid() && Complete(rec) && Insertable(rec)
    requires FindDrone(db.drones, rec.id.value).Some?
    ensures var s := Ingested(db, rec, t0).db; var i := FindDrone(db.drones, rec.id.value).value;
      && i < |s.drones|
      && (HasActiveSession(Swept(s, now).sessions, i) <==> now - t0 <= StaleAfter)
      && (Swept(s, now).drones[i].status == Active <==> now - t0 <= StaleAfter)
  {
    var s := Ingested(db, rec, t0).db;
    ReportRefreshes(db, rec, t0);
    SweepPreservesValid(s, now);
    SweepEffect(s, now);
  }

  /** A message for a drone whose session the sweep closed opens a new
      session under a fresh id; the closed session keeps its end time. */
  lemma ReopenAfterSweep(db: Db, k: nat, t: int, rec: Record, now: int)
    requires db.Valid() && Complete(rec)
    requires k < |db.sessions| && db.sessions[k].active
    requires db.drones[db.sessions[k].drone].droneId == rec.id.value
    requires Stale(db.drones[db.sessions[k].drone], t)
    ensures var r := Ingested(Swept(db, t), rec, now).db;
      && |r.sessions| == |db.sessions| + 1
      && r.sessions[|db.sessions|] == FlightSession(db.sessions[k].drone, now, None, true)
      && r.sessions[k] == db.sessions[k].(end := Some(t), active := false)
  {
    var s := Swept(db, t);
    var i := db.sessions[k].drone;
    SweepPreservesValid(db, t);
    SweepEffect(db, t);
    assert FindDrone(db.drones, rec.id.value) == Some(i);
    assert s.drones[i].droneId == rec.id.value;
    assert FindDrone(s.drones, rec.id.value) == Some(i) by {
      var f := FindDrone(s.drones, rec.id.value);
      assert f.Some?;
      assert s.drones[f.value].droneId == db.drones[f.value].droneId;
    }
    ReopenAfterClose(s, rec, now);
  }
}
