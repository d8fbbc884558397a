/** One pass of the liveness sweep (`deactivate_inactive_drones`) at time
    `now`, as a function on the database, with the properties it keeps.

    Each drone whose `last_active` is set and more than `StaleAfter` seconds
    old is marked inactive and its open session is closed at `now`; every
    other row is left as it is. */
module Sweep {
  import opened Schema

  /** A drone after the pass: inactive if stale, otherwise untouched. */
  function Marked(d: Drone, now: int): Drone {
    if Stale(d, now) then d.(status := Inactive) else d
  }

  /** A session after the pass: closed at `now` if it was open and its drone is stale.
      This closes every open session of a stale drone, where the pass closes
      only the first one the lookup finds; the two agree under
      `Db.AtMostOneActive`, which every reachable database satisfies. */
  function Closed(drones: seq<Drone>, s: FlightSession, now: int): FlightSession {
    if s.active && s.drone < |drones| && Stale(drones[s.drone], now)
    then s.(end := Some(now), active := false)
    else s
  }

  /** The database after one sweep pass at `now`. */
  function Swept(db: Db, now: int): (r: Db)
    ensures r.pilots == db.pilots && r.samples == db.samples
    ensures |r.drones| == |db.drones| && |r.sessions| == |db.sessions|
  {
    Db(db.pilots,
       seq(|db.drones|, i requires 0 <= i < |db.drones| => Marked(db.drones[i], now)),
       seq(|db.sessions|, k requires 0 <= k < |db.sessions| => Closed(db.drones, db.sessions[k], now)),
       db.samples)
  }

  /** The pass changes a drone only when it is stale, and then only its status;
      its open session, and only that, is closed with end time `now`. Pilots
      and samples do not change. */
  lemma SweepEffect(db: Db, now: int)
    requires db.Valid()
    ensures var r := Swept(db, now);
      && (forall i :: 0 <= i < |db.drones| ==>
            r.drones[i] == if Stale(db.drones[i], now) then db.drones[i].(status := Inactive) else db.drones[i])
      && (forall i :: 0 <= i < |db.drones| ==>
            (HasActiveSession(r.sessions, i) <==> HasActiveSession(db.sessions, i) && !Stale(db.drones[i], now)))
      && (forall k :: 0 <= k < |db.sessions| && db.sessions[k].active && Stale(db.drones[db.sessions[k].drone], now) ==>
            r.sessions[k] == db.sessions[k].(end := Some(now), active := false))
      && (forall k :: 0 <= k < |db.sessions| && !(db.sessions[k].active && Stale(db.drones[db.sessions[k].drone], now)) ==>
            r.sessions[k] == db.sessions[k])
  {
    var r := Swept(db, now);
    forall i | 0 <= i < |db.drones|
      ensures HasActiveSession(r.sessions, i) <==> HasActiveSession(db.sessions, i) && !Stale(db.drones[i], now)
    {
      if HasActiveSession(r.sessions, i) {
        var k :| 0 <= k < |r.sessions| && r.sessions[k].drone == i && r.sessions[k].active;
        assert db.sessions[k].drone == i && db.sessions[k].active;
      }
      if HasActiveSession(db.sessions, i) && !Stale(db.drones[i], now) {
        var k :| 0 <= k < |db.sessions| && db.sessions[k].drone == i && db.sessions[k].active;
        assert r.sessions[k] == db.sessions[k];
      }
    }
  }

  /** The pass never opens a session: every session open afterwards was open before. */
  lemma SweepNeverOpens(db: Db, now: int)
    ensures var r := Swept(db, now);
      forall k :: 0 <= k < |r.sessions| && r.sessions[k].active ==>
        db.sessions[k].active && r.sessions[k] == db.sessions[k]
  {
  }

  /** The pass keeps every integrity constraint. */
  lemma SweepPreservesValid(db: Db, now: int)
    requires db.Valid()
    ensures Swept(db, now).Valid()
  {
    var r := Swept(db, now);
    SweepEffect(db, now);
    assert forall i :: 0 <= i < |r.drones| ==> r.drones[i].droneId == db.drones[i].droneId && r.drones[i].pilot == db.drones[i].pilot;
    assert forall k :: 0 <= k < |r.sessions| ==> r.sessions[k].drone == db.sessions[k].drone;
    assert r.UniqueDroneIds();
    assert r.Linked();
    assert r.AtMostOneActive();
    forall i | 0 <= i < |r.drones|
      ensures r.drones[i].status == Active <==> HasActiveSession(r.sessions, i)
    {
      assert db.drones[i].status == Active <==> HasActiveSession(db.sessions, i);
    }
  }

  /** A second pass at the same time changes nothing. */
  lemma SweepIdempotent(db: Db, now: int)
    ensures Swept(Swept(db, now), now) == Swept(db, now)
  {
  }
}
