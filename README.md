# Drone telemetry database server: ingestion and flight-session lifecycle

This project models the core of `Database_Server.py`, the server that
stores drone Remote-ID telemetry. It has two state-changing activities
that share one SQLite database of four tables:

- **Pilot**: keyed by the pilot id. The value is the pilot's name.
- **Drone**: carries a unique external `drone_id`, a status (active or
  inactive), an optional `last_active` time and the owning pilot.
- **FlightSession**: belongs to a drone. It has a start time, an optional
  end time and an `is_active` flag.
- **DroneData**: one telemetry sample in a session. It holds latitude,
  longitude, altitude, barometric altitude, speed and a timestamp.

The two activities are:

- **The MQTT message handler** (`on_message`). It validates a decoded
  message, upserts the pilot and the drone, finds or opens the drone's
  active session, and appends one sample.
- **The liveness sweep** (`deactivate_inactive_drones`). Each pass marks
  every drone silent for more than 10 seconds as inactive and closes its
  open session.

The two read-only REST queries, active drones and flight history, are
modelled as functions over the same tables.

Structure:

- `schema.dfy` (module `Schema`): the tables as the value `Db`, the
  integrity invariant `Db.Valid`, and the two lookups.
  - The invariant says: drone ids are unique; every foreign key points
    at a row; a session has an end time exactly when it is closed; each
    drone has at most one open session; and a drone's status is active
    exactly when it has an open session.
  - The lookups are the first drone with an id, and the first open
    session of a drone.
- `ingest.dfy` (module `Ingest`): the handler as the function `Ingested`,
  with lemmas on pilot and drone upsert, session reuse or opening, sample
  append, the failing-insert path and preservation of the invariant.
- `sweep.dfy` (module `Sweep`): one sweep pass as the function `Swept`,
  with lemmas on its effect, preservation of the invariant, idempotence
  and that it never opens a session.
- `lifecycle.dfy` (module `Lifecycle`): how the two activities combine:
  - when silence closes a session;
  - why a drone seen only once is never swept;
  - reopening a session after the sweep closed one.
- `server.dfy` (module `Server`): the class `DatabaseServer`. Its fields
  are the four tables. `OnMessage` and `DeactivateInactiveDrones` update
  them in place, the sweep with a loop over the drones. Each method is
  proved to produce exactly the state of `Ingested` / `Swept` and to keep
  the invariant.
- `queries.dfy` (module `Queries`): `/api/active_drones` and
  `/api/history/<drone_id>`.

Modelling decisions:

- **Row ids are positions.** The row with SQLite rowid `n` is at
  position `n - 1` of its sequence. The source never deletes a row, so
  an appended row gets a fresh id, exactly as the auto-increment key
  does.
- **Times are whole seconds.** The handler's wall-clock time (`utcnow`
  for `last_active`, the database's `now()` for session start and sample
  timestamp) is one parameter, `now`. The sweep's `utcnow` is the pass's
  parameter `now`.
- **Readings are stored as `real`.** They are never computed on; `real`
  keeps "a latitude of 0 is present" statable.
- **Messages are already decoded.** A message is a `Record` in which
  every field may be absent. Validation follows line 70:
  - `id` and `pilot_id` must be truthy, that is present and non-empty;
  - latitude, longitude and altitude need only be present, so 0 passes.
- **A missing `barometer_altitude` or `speed` is a partial update.**
  Validation lets such a message through, but the DroneData columns are
  NOT NULL (lines 43-44), so the commit at line 112 fails and the
  exception is swallowed at lines 118-119. The model keeps what the
  earlier commits wrote:
  - a new pilot (line 81);
  - a new drone (line 89);
  - a newly opened session (line 100), which also commits the refresh of
    an existing drone (lines 91-93).
  The refresh of an existing drone whose session was already open is
  never committed, so it is rolled back. The outcome is `StoreError`.
- **Quirks kept as written.**
  - A drone created by its first message has no `last_active` (line 87),
    so the sweep skips it (line 128) until a second message sets it.
    `Lifecycle.FirstMessageNeverSwept` proves that no pass closes such a
    drone's session.
  - `pilot_id` is required (line 70). The shown senders (`remoteid.cpp`,
    `dronesim.py`, `esp32_sim.py`) do not send it, so their messages are
    all `Skipped`.
- **The sweep does not test `status`** (line 128): it re-marks a stale
  drone inactive on every pass. Under the invariant this changes nothing,
  as `Sweep.SweepIdempotent` states.

## Model

| member | source | states |
|---|---|---|
| `Schema.FindDrone` | Database_Server.py:84 | the result is the first Drone row whose `drone_id` equals the id; none exactly when no row has it |
| `Schema.FindActiveSession` | Database_Server.py:96 | the result is the first session of the drone with `is_active` set; none exactly when the drone has no open session |
| `Schema.ActiveSessionUnique` | Database_Server.py:133 | in a valid database, any open session of a drone is the one the lookup finds |
| `Ingest.UpsertPilot` | Database_Server.py:76-81 | afterwards the pilot id is a key; a new pilot is named by its id; an existing pilot and every other pilot keep their names |
| `Ingest.UpsertPilotIdempotent` | Database_Server.py:76-81 | upserting the same pilot twice equals upserting it once |
| `Ingest.Ingested` | Database_Server.py:62-72 | a message is skipped exactly when `id` or `pilot_id` is absent or empty, or a coordinate is absent, and then nothing changes; it fails to store exactly when it is complete but lacks barometric altitude or speed; only a stored message adds a sample, exactly one |
| `Ingest.IngestUpsertsPilot` | Database_Server.py:76-81 | after an accepted message the pilot set grows by at most its pilot; that pilot keeps an existing name or is named by its id; no other pilot changes |
| `Ingest.IngestUpsertsDrone` | Database_Server.py:84-93 | after a stored message exactly one drone has the message's id; it is active and owned by the message's pilot; a new drone has no `last_active`, an existing one gets `now`; the table grows by one row exactly when the drone is new; no other drone changes |
| `Ingest.IngestSession` | Database_Server.py:96-100 | the drone's open session is reused with no session added; if there is none, exactly one session is appended: active, no end time, started now |
| `Ingest.IngestAppendsSample` | Database_Server.py:103-112 | a stored message appends exactly one sample carrying its readings and `now`, attached to the drone's open session; all earlier samples and sessions are unchanged |
| `Ingest.ActiveSessionUniqueAfterOpen` | Database_Server.py:97-100 | a session opened for a drone without one becomes the session the next lookup finds |
| `Ingest.IngestStoreError` | Database_Server.py:103-119 | without barometric altitude or speed no sample is stored; the pilot upsert, a new drone and a newly opened session stay; an existing drone's refresh stays only together with a new session |
| `Ingest.HasActiveSessionAppend` | Database_Server.py:99 | appending a session changes whether a drone has an open session only for that session's drone |
| `Ingest.IngestPreservesValid` | Database_Server.py:84-112 | every message keeps the database invariant, in particular at most one open session per drone |
| `Ingest.IngestKeepsIdsUnique` | Database_Server.py:84-89 | the handler never creates a second drone with the same `drone_id` |
| `Ingest.IngestKeepsLinks` | Database_Server.py:87-111 | every drone, session and sample the handler writes points at an existing pilot, drone or session |
| `Ingest.IngestKeepsSessionsConsistent` | Database_Server.py:96-100 | after a message, sessions still have an end time exactly when closed, and no drone has two open sessions |
| `Ingest.IngestKeepsStatus` | Database_Server.py:87-100 | after a message, a drone is active exactly when it has an open session |
| `Ingest.ReopenAfterClose` | Database_Server.py:96-100 | a message for a drone with no open session appends a session under a fresh id; every earlier session, closed ones included, is unchanged; a stored sample goes into the new session |
| `Sweep.Swept` | Database_Server.py:127-137 | a pass changes neither pilots nor samples, and keeps the number of drones and sessions |
| `Sweep.SweepEffect` | Database_Server.py:127-137 | a drone changes only if `last_active` is set and more than 10 s old, and then only its status, to inactive; such a drone's open session is closed with end time `now`; no other session changes; afterwards a drone has an open session exactly when it had one and is not stale |
| `Sweep.SweepNeverOpens` | Database_Server.py:127-138 | every session open after a pass was open, unchanged, before it |
| `Sweep.SweepPreservesValid` | Database_Server.py:127-138 | a pass keeps the database invariant |
| `Sweep.SweepIdempotent` | Database_Server.py:127-138 | a second pass at the same time changes nothing |
| `Lifecycle.FirstMessageNeverSwept` | Database_Server.py:128 | a drone created by a message stays active with an open session through any later pass, because line 87 leaves its `last_active` unset |
| `Lifecycle.ReportRefreshes` | Database_Server.py:90-100 | after a stored message from an existing drone at `t0`, the drone was last seen at `t0` and has an open session |
| `Lifecycle.SilenceClosesSession` | Database_Server.py:128-136 | after a stored report at `t0`, a pass at `now` closes the drone's session and marks it inactive exactly when `now - t0 > 10` |
| `Lifecycle.ReopenAfterSweep` | Database_Server.py:133-136 | after a pass closes a drone's session at `t`, the next message for it opens a new session with a fresh id; the closed one keeps end time `t` and stays closed |
| `Server.DatabaseServer.constructor` | Database_Server.py:206-207 | a new server has four empty tables, which satisfy the invariant |
| `Server.DatabaseServer.OnMessage` | Database_Server.py:59-119 | updates the tables in place to exactly `Ingested` of the old tables and keeps the invariant |
| `Server.DatabaseServer.DeactivateInactiveDrones` | Database_Server.py:124-138 | one pass over all drones updates the tables in place to exactly `Swept` of the old tables and keeps the invariant |
| `Queries.LatestSample` | Database_Server.py:156-158 | the result is a sample in an open session of the drone with the largest timestamp, the last stored among equal timestamps; none exactly when there is no such sample |
| `Queries.ActiveDronesUpTo` | Database_Server.py:145-159 | among the first `n` drones, every listed drone has its entry, and every entry is that of a listed drone |
| `Queries.ActiveDrones` | Database_Server.py:143-160 | the response holds an entry for every drone marked active that has a sample in an open session, and nothing else; each entry carries the pilot's name or "Unknown" and the latest sample's readings |
| `Queries.SamplesOf` | Database_Server.py:171-185 | the readings of a session are exactly the views of the samples attached to it |
| `Queries.SessionsOf` | Database_Server.py:168-187 | the history lists exactly the drone's sessions, each with start, end and its readings |
| `Queries.FlightHistory` | Database_Server.py:162-189 | the response is 404 exactly when no drone has the id; otherwise it is that drone's sessions with their readings |
| `Queries.ActiveAfterFirstReport` | Database_Server.py:143-160 | the active list of an empty database is empty; after the first stored message it holds exactly that drone, with its pilot's name and the message's readings |
| `Queries.SweptDroneNotListed` | Database_Server.py:145 | a drone the sweep found stale is no longer listed as active |
| `Queries.HistoryGrowsByStoredSample` | Database_Server.py:170-187 | a stored message adds its reading at the end of its session's history and changes no other session's readings |

## Left out

- MQTT transport: connecting and subscribing (lines 52-57) and the client setup (lines 212-216). This is network I/O.
- JSON decoding and its error branch (lines 61, 116-117): the model starts from a decoded `Record`. A payload that is not a JSON object, and `id` or `pilot_id` values that are not strings (numbers and booleans have their own Python truthiness), are not modelled.
- Concurrency: the sweep runs on its own thread (lines 122-123, 209-210) over the same database as the handler, and the pass repeats forever with a 10-second sleep (line 139). The model takes one pass and one message as atomic steps. Interleavings inside a step are not modelled.
- Clock resolution: `datetime` has microseconds and `total_seconds()` is fractional; the model uses whole seconds, and one `now` stands for both the Python clock and the database's `now()`.
- Errors other than the NOT NULL violation: a locked or failing database, for instance. The model has no store failure besides the missing readings.
- Pilot ids that read as numbers: `Drone.pilot_id` is declared Integer (line 26) while `Pilot.id` is a string (line 17). SQLite's INTEGER affinity converts a pilot id such as "007" or "1e3" to a number when the drone row is written, so the lookup of `drone.pilot` at line 149 finds no pilot and `/api/active_drones` shows "Unknown". The model keeps the string as sent, so `Queries.PilotName` returns the pilot's name in that case; the "Unknown" it produces is not modelled.
- Non-finite readings: `json.loads` accepts `NaN`, and line 70 lets it through because it is not None. SQLite stores NaN as NULL, so the NOT NULL insert at line 112 fails just as for a missing reading and the handler ends in the partial update. Readings are `real` here, which has no NaN, so the model stores such a sample where the source reports an error.
- Flask routing, `jsonify` and `app.run` (lines 143-218): only the data the two query handlers compute is modelled. Their `start_time`/`timestamp` formatting is not.
- The search endpoint (lines 191-203): it relies on the database's case-insensitive `ilike`, whose case folding is not part of this model.
- `Queries.LatestSample`: `ORDER BY timestamp DESC ... first()` leaves the choice among equal timestamps to the database; the model picks the sample stored last.
- `Queries.ActiveDrones`: states membership both ways but not the order of entries, which is the order of the drone table.
- `Queries.SamplesOf`: states membership both ways but not that readings keep their stored order; `Queries.HistoryGrowsByStoredSample` states how a new reading is placed.
- `Queries.SessionsOf`: states membership both ways but not that sessions keep their id order.
- remoteid.cpp is ESP32 firmware: WiFi, flash storage, MAVLink parsing through a foreign library with float conversions, and the MQTT publish. It is not part of this model.
- dronesim.py and esp32_sim.py generate test traffic from trigonometric float positions. Livestream_Server.py is an HTTP proxy with no logic of its own. Neither is part of this model.
