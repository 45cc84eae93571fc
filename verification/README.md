# Freetown public-transport tracker: registry and simulator model

A Dafny model of the logic in the Freetown public-transport tracker. The
system has a Flask backend and two Node.js simulator scripts.

- **Backend, full variant** (`app.py`, module `App`). The backend keeps an
  in-memory registry `vehicle_data` that maps a vehicle id to a record. It
  has three endpoints:
  - **update** checks the query arguments `id`, `lat`, `lon` and `mode`, then
    replaces the id's whole record. The record holds the coordinates, the
    mode after `strip().lower()`, and the time of the report.
  - **list** returns a snapshot of the registry. Each vehicle comes with a
    placeholder arrival estimate, `round(5 + age / 60)` minutes.
  - **delete** has three outcomes: 400 without an id, 404 for an unknown id,
    and 200 after removing the id.
- **Backend, earlier variant** (`app_tracker.py`, module `AppTracker`). The
  same registry without a mode and without delete. Module `Variants` proves
  how the two variants correspond.
- **Vehicle simulator** (`simulator/vehicle_simulator.js`, module
  `VehicleSimulator`).
  - For each of the six supported modes, the simulator looks for the first
    route feature whose mode matches, ignoring case. It builds one vehicle
    per mode, with id `<mode lower-cased, whitespace removed>_<mode index>`,
    starting at a random point of that route.
  - Every tick, each vehicle sends its current point as an update ping and
    moves one point further along its route. After the last point it wraps
    back to the first.
- **Simulation-data generator** (`simulator/generate_simulation_data.js`,
  module `SimulationData`). It builds two vehicles per route feature, in
  route order. Vehicle `n` of route `k` gets the id `<slug>_<k>_<n>`. A
  route without a mode uses "Unknown".
- **Pipeline** (module `Pipeline`). Connects the simulator to the full
  backend: after one tick of a freshly built fleet, the registry holds every
  simulated vehicle at the point the tick reported.

Supporting modules:
- `Common`: `Option`, `Result`, the truthiness test both languages apply,
  Python's `all` over it, and the `Parser` that stands for `float(...)`.
- `Text`:
  - Python's `strip` and `lower`;
  - JavaScript's `toLowerCase` and `replace(/\s+/g, "")`;
  - decimal rendering of indices and its parser;
  - splitting at the last `_`.
- `Eta`: Python's round-half-to-even on the estimate.
- `Routes`: GeoJSON features, simulated vehicles, and the random start index.

How the environment is modelled:
- `time.time()` is an integer parameter `now`. An age is a whole number of
  seconds.
- Query coordinates arrive as text. The backend reads them with a `Parser`
  parameter that stands for Python's `float(...)`. `None` stands for the
  `ValueError` that Flask turns into a 500 page.
- `Math.random()` is a list of draws in [0, 1). The start index is
  `floor(draw * length)` over exact reals. For the same draw, the script's
  double-precision product can round up to the next index; either way the
  index is in range and every index is reachable by some draw.
- The simulator uses one draw per supported-mode index. The generator uses
  one draw per vehicle, in push order.

Where the code is more precise than a plain reading of it, the model follows
the code:
- The simulator takes the *first* feature whose mode matches. If that
  feature has no coordinates, the mode gets no vehicle, even when a later
  feature of the same mode has a route.
- The simulator's search for a mode throws a TypeError when it reaches a
  feature without `properties` before any feature of that mode; a match
  earlier in the list ends the search first. The generator tolerates such
  a feature (`properties?.mode`).
- A feature without `geometry`, or without `coordinates`, makes the
  generator throw. An empty coordinate list makes it start the vehicle at
  index 0, which is not a point of the path.
- The comment beside the estimate speaks of 5 to 15 minutes, but the code
  never caps it, and the earlier variant never deletes a record. A report
  630 seconds old is listed 16 minutes away, and the estimate keeps growing
  with the age.
- A mode of blanks passes the backend's check, because `"  "` is truthy. It
  is then stored as the empty mode.

## Model

| member | source | states |
|---|---|---|
| Common.AllTruthy | app.py:20 | Python's `all` over optional strings holds exactly when every element is present and non-empty |
| App.StatusCode | app.py:21-67 | the HTTP code of each reply: 200 exactly for a listing or a successful message, otherwise 400, 404 or 500 |
| App.NormalizeMode | app.py:26 | the stored mode has no surrounding whitespace and no upper-case letter, and is empty exactly when the reported mode is all whitespace |
| App.NormalizeModeIdempotent | app.py:26 | normalising a stored mode again changes nothing |
| App.HasAllArgs | app.py:20 | the update goes ahead exactly when `all([id, lat, lon, mode])` holds: each of the four arguments is present and non-empty |
| App.UpdateLocationHandler | app.py:14-30 | a missing or empty argument gives 400 "Missing parameters" and keeps the store; unparsable coordinates give 500 and keep the store; otherwise the reply is 200 "Location updated for <id>", the id holds exactly the parsed coordinates, the normalised mode and `now`, and every other entry is unchanged |
| App.ListVehicles | app.py:33-51 | one listing per stored id with the stored coordinates, the stored mode or "unknown", and an estimate that is Python's `round(5 + age/60)`, at least 5 for a report no later than `now` |
| App.DeleteVehicleHandler | app.py:58-67 | no id gives 400 "Vehicle ID required"; a stored id is removed with 200 "Deleted vehicle <id>" and every other entry kept; an unknown id gives 404 "Vehicle not found" and keeps the store |
| App.Handle | app.py:13-67 | listing never changes the store; a reply other than 200 leaves the store unchanged; an id disappears only by a delete of that id and changes only by an update of that id |
| App.UpdateThenList | app.py:23-48 | right after an accepted update, the listing shows exactly the written coordinates and normalised mode, five minutes away, and every other vehicle as before |
| App.UpdateThenDelete | app.py:23-67 | deleting right after an accepted update succeeds and leaves the previous store minus that id, so a new id is fully undone |
| App.DeleteTwice | app.py:63-67 | a second delete of the same id answers 404 and changes nothing |
| App.LastWriteWins | app.py:23-28 | two accepted updates of one id leave what the second alone leaves: nothing of the first record survives |
| App.UpdatesCommute | app.py:23-28 | accepted updates of different ids give the same store in either order |
| App.BlankModeStoredEmpty | app.py:20-26 | a mode of blanks passes validation and is listed as the empty mode, not as "unknown" |
| AppTracker.UpdateLocationHandler | app_tracker.py:14-27 | a missing or empty id, lat or lon gives 400 and keeps the store; unparsable coordinates give 500 and keep the store; otherwise the id holds exactly the parsed coordinates and `now`, and every other entry is unchanged |
| AppTracker.HasAllArgs | app_tracker.py:19 | the update goes ahead exactly when `all([id, lat, lon])` holds: each of the three arguments is present and non-empty |
| AppTracker.ListVehicles | app_tracker.py:30-47 | the listing has exactly the stored ids with their stored coordinates and Python's `round(5 + age/60)`, at least 5 for a report no later than `now` |
| AppTracker.GetVehiclesHandler | app_tracker.py:30-47 | the listing endpoint returns the store untouched, with a snapshot of exactly its ids |
| AppTracker.UpdateThenList | app_tracker.py:22-45 | right after an accepted update, the listing shows the written coordinates five minutes away and every other vehicle as before |
| AppTracker.UpdateGrowsByOne | app_tracker.py:22-26 | an accepted update never removes an id and adds one exactly when the id was new |
| Variants.UpdateAgrees | app_tracker.py:14-27 | every update the full variant accepts, the earlier variant accepts too, and forgetting modes commutes with the update |
| Variants.MissingModeOnlyRefusedByFull | app.py:20-21 | an update lacking only its mode is refused with 400 by the full variant and accepted with 200 by the earlier one |
| Variants.ListingsAgree | app_tracker.py:34-45 | both variants list the same ids with the same coordinates and estimates; the full variant only adds the mode |
| Eta.EtaMinutes | app.py:39-42 | the estimate is an integer within one half of `5 + age/60`, the even one on a tie, and at least 5 for a non-negative age |
| Eta.RoundHalfEvenUnique | app.py:42 | round-half-to-even has exactly one answer |
| Eta.EtaIsPythonRound | app_tracker.py:39 | any integer that rounds `5 + age/60` half to even is the modelled estimate |
| Eta.EtaMonotonic | app.py:42 | an older report never gets a smaller estimate |
| Eta.EtaCommentedRange | app_tracker.py:38-39 | for a report no later than `now`, the estimate stays within the commented 5 to 15 minutes exactly when the report is under 630 seconds old; nothing caps it after that |
| Eta.FreshReportEta | app_tracker.py:39 | a report of this very second is listed five minutes away |
| Text.Lower | app.py:26 | lower-casing keeps the length and maps each upper-case ASCII letter to its lower-case letter, every other character to itself |
| Text.Strip | app.py:26 | `strip()` gives the contiguous middle of the mode from its first non-whitespace character, with no whitespace at either end, empty exactly when the mode is all whitespace |
| Text.StripIdempotent | app.py:26 | stripping twice is stripping once |
| Text.LowerIdempotent | app.py:26 | lower-casing twice is lower-casing once |
| Text.RemoveWhitespace | simulator/vehicle_simulator.js:36 | the result contains no whitespace, and a character occurs in it exactly when it occurs in the input and is not whitespace |
| Text.RemoveWhitespaceAppend | simulator/vehicle_simulator.js:36 | removing whitespace distributes over concatenation, so the other characters keep their order |
| Text.Slug | simulator/generate_simulation_data.js:15 | the id stem has no whitespace and no upper-case letter |
| Text.SlugWithoutWhitespace | simulator/vehicle_simulator.js:36 | a mode without whitespace slugs to its lower-case form |
| Text.NatToString | simulator/vehicle_simulator.js:36 | an index is written as a non-empty run of decimal digits with no leading zero |
| Text.ParseNatToString | simulator/vehicle_simulator.js:36 | the decimal index written into an id reads back as the same number |
| Text.NatToStringInjective | simulator/generate_simulation_data.js:15 | different indices are written differently |
| Text.SplitLast | simulator/vehicle_simulator.js:36 | splitting an id at its last `_` fails exactly when there is none; otherwise the two parts rebuild the id and the second has no `_` |
| Text.SplitLastJoin | simulator/vehicle_simulator.js:36 | splitting `a_b` at its last `_` gives back `a` and `b` when `b` has no `_` |
| Routes.StartIndex | simulator/vehicle_simulator.js:39 | `floor(random * length)` is an index of a non-empty path, and 0 for an empty one |
| Routes.EveryStartReachable | simulator/generate_simulation_data.js:18 | every index of a path is the start index of some draw |
| VehicleSimulator.FindRoute | simulator/vehicle_simulator.js:28-30 | the search returns the first feature whose mode matches up to case, every earlier feature being passed over; none exactly when all are passed over; a TypeError only when a feature without properties comes before any match |
| VehicleSimulator.SimulatorIdFormat | simulator/vehicle_simulator.js:36 | a simulator id is `<slug>_<index>`: split at its last `_`, it gives the mode lower-cased without whitespace and the mode index in decimal |
| VehicleSimulator.IndexOfSimulatorId | simulator/vehicle_simulator.js:36 | the mode index can be read back from a simulator id, whatever the mode name contains |
| VehicleSimulator.SimulatorIdInjective | simulator/vehicle_simulator.js:36 | vehicles of different mode indices never share an id |
| VehicleSimulator.VehicleFor | simulator/vehicle_simulator.js:26-44 | a mode fails exactly when its search fails, gets a vehicle exactly when its first match has coordinates, and that vehicle has the id `<slug>_<index>`, the mode, the match's coordinates as path and a start on the path |
| VehicleSimulator.Collect | simulator/vehicle_simulator.js:26-44 | the loop over the modes fails exactly when some mode fails, and pushes at most one vehicle per mode |
| VehicleSimulator.CollectOrigins | simulator/vehicle_simulator.js:26-44 | each pushed vehicle comes from its own mode slot, in the order of the slots |
| VehicleSimulator.CollectComplete | simulator/vehicle_simulator.js:35-40 | no vehicle built for a mode is dropped |
| VehicleSimulator.BuildFleet | simulator/vehicle_simulator.js:14-44 | the fleet fails exactly when some mode's search fails; otherwise it has at most 6 vehicles, all on a non-empty route at an index of it |
| VehicleSimulator.SupportedModesDistinct | simulator/vehicle_simulator.js:14-21 | the six supported modes differ, even ignoring case |
| VehicleSimulator.FleetOrigins | simulator/vehicle_simulator.js:26-44 | vehicle `a` simulates a supported mode that has a route, modes in list order; it is named after that mode and index, reports that mode, and drives the first matching feature's coordinates |
| VehicleSimulator.FleetIdsDistinct | simulator/vehicle_simulator.js:36 | no two vehicles of the fleet share an id |
| VehicleSimulator.FleetCoversModes | simulator/vehicle_simulator.js:28-43 | a supported mode has a vehicle exactly when its first matching feature has coordinates |
| VehicleSimulator.PingOf | simulator/vehicle_simulator.js:48-58 | the ping carries the vehicle's id and mode and the point at its index, latitude and longitude taken from GeoJSON's `[lon, lat]` |
| VehicleSimulator.Step | simulator/vehicle_simulator.js:66 | a step keeps id, mode and path, moves to the next point, and from the last point back to the first |
| VehicleSimulator.UpdateVehicles | simulator/vehicle_simulator.js:46-67 | one tick pings every vehicle at its current point and steps every vehicle, keeping all of them drivable |
| VehicleSimulator.StepN | simulator/vehicle_simulator.js:66 | repeated steps keep id, mode and path and an index on the path |
| VehicleSimulator.Run | simulator/vehicle_simulator.js:46-71 | repeated ticks keep the fleet's size and every vehicle drivable |
| VehicleSimulator.StepNIndex | simulator/vehicle_simulator.js:66 | after `n` steps the index is `(start + n) mod length` |
| VehicleSimulator.StepCycle | simulator/vehicle_simulator.js:66 | after as many steps as the path has points a vehicle is back where it started |
| VehicleSimulator.EveryPointReached | simulator/vehicle_simulator.js:66 | within one loop every point of the route is reached |
| VehicleSimulator.RunSteps | simulator/vehicle_simulator.js:47 | each vehicle moves on its own: vehicle `a` after `n` ticks is vehicle `a` stepped `n` times |
| SimulationData.ModeOf | simulator/generate_simulation_data.js:9 | a truthy mode is kept as is, anything else becomes "Unknown" |
| SimulationData.GeneratedIdFormat | simulator/generate_simulation_data.js:15 | a generated id is `<slug>_<routeIndex>_<n>`: split at its last `_`, it gives the vehicle number in decimal, and the rest split again gives the slug and the route index in decimal |
| SimulationData.ParseGeneratedIdRoundTrip | simulator/generate_simulation_data.js:15 | slug, route index and vehicle number read back out of a generated id, even when the mode contains `_` or digits |
| SimulationData.GeneratedIdInjective | simulator/generate_simulation_data.js:15 | two generated ids are equal only for the same route, number and slug |
| SimulationData.PairFor | simulator/generate_simulation_data.js:9-20 | a route without geometry or coordinates throws; otherwise it gives two vehicles numbered 1 and 2 with the route's raw mode, its unchanged path and a start on it |
| SimulationData.GenerateFrom | simulator/generate_simulation_data.js:8-21 | generation from a route on throws exactly when some later route lacks a path, and otherwise gives two vehicles per route |
| SimulationData.GenerateFromContents | simulator/generate_simulation_data.js:8-21 | entry `a` of the list is vehicle `a % 2 + 1` of route `a / 2`, counted from the first route generated |
| SimulationData.Generate | simulator/generate_simulation_data.js:8-24 | the script throws exactly when some route lacks a path; otherwise it writes 2 × (number of routes) vehicles |
| SimulationData.GenerateContents | simulator/generate_simulation_data.js:8-21 | the list is ordered by route, then by vehicle number, each vehicle with its route's id, raw mode, unchanged path and a start on the path |
| SimulationData.GeneratedIdsDistinct | simulator/generate_simulation_data.js:15 | no two generated vehicles share an id, whatever the modes |
| SimulationData.UnknownSlug | simulator/generate_simulation_data.js:9 | the default mode "Unknown" slugs to "unknown" |
| SimulationData.UnknownModeId | simulator/generate_simulation_data.js:9-15 | a route without a usable mode gives vehicles of mode "Unknown" with ids `unknown_<route>_<n>` |
| Pipeline.PingAccepted | app.py:20-30 | a ping with a non-empty id and mode, whose coordinates survive writing and parsing, is answered 200 and sets exactly its id |
| Pipeline.Deliver | simulator/vehicle_simulator.js:52-59 | delivering pings never removes an id from the registry |
| Pipeline.AssignContents | app.py:23 | assigning distinct ids leaves each holding its own record and every other id unchanged |
| Pipeline.DeliverWrites | app.py:23-28 | accepted pings leave exactly the store that assigning each ping's record gives |
| Pipeline.DeliverAll | app.py:23-28 | after accepted pings with distinct ids, each id holds its ping's coordinates, normalised mode and the time that ping was handled, and every other id keeps its entry |
| Pipeline.SupportedModeStored | app.py:26 | every supported mode is stored as its plain lower-case form |
| Pipeline.FirstTickReachesBackend | simulator/vehicle_simulator.js:46-59 | after one tick of a fresh fleet, the backend holds every simulated vehicle under its id at its starting point, with the mode lower-cased and stamped with the time its own request was handled |

## Left out

- Flask routing, the `/` home route, CORS, `jsonify` and JSON bodies. Each
  endpoint is a function from the store and the request arguments to the
  new store and a reply.
- The request body of delete. The model takes the `id` field as an optional
  string. A body that is not JSON, or a non-string id, is not modelled.
- `float(...)` is a parser parameter, not a model of Python's number
  syntax. Coordinates are exact reals, so floating-point rounding of the
  coordinates is not modelled.
- `time.time()` is an integer `now`. Fractional seconds and the
  floating-point division inside `round(5 + age / 60)` are not modelled: the
  estimate is rounded exactly.
- Case mapping covers ASCII letters only. The six supported modes are
  ASCII. A non-ASCII mode sent by a client or read from the route file is
  not case-mapped as Python or JavaScript would map it.
- The unused `geopy` import.
- Python's dict iteration order. The listing is a map.
- File I/O (`fs`), `axios`, `setInterval` and console logging. The ping is
  modelled as the update request it sends. `Pipeline` delivers the pings of
  a tick one after another; the real requests run concurrently, and failed
  requests are not retried. Because the fleet's ids are distinct, the order
  does not matter (`App.UpdatesCommute`).
- `Math.random()` is an explicit list of draws. The simulator's draws are
  indexed by mode index, so a skipped mode leaves its draw unused. The real
  script consumes draws only for modes that get a vehicle. Either way each
  start index is an arbitrary index of the path.
- JSON values of the wrong type, such as a numeric mode or non-array
  coordinates, are not modelled.
- Pipeline.FirstTickReachesBackend: assumes that each coordinate pinged in
  that tick is written as non-empty text that the backend parses back to
  the same number; how numbers are printed into the query is not modelled.
  It also assumes that every request of the tick reaches the backend. The
  script catches a failed request, logs it and steps the vehicle anyway,
  so a vehicle whose request failed keeps its old entry, or none. Each
  request is stamped with its own arrival time.
- VehicleSimulator.UpdateVehicles: steps every vehicle within the tick. The
  script steps a vehicle only after its request has settled, and `axios`
  sets no timeout. The model assumes every request of a tick settles before
  the next tick fires 10 seconds later; otherwise the next tick pings the
  same point again.
- VehicleSimulator.RunSteps: vehicle `a` after `n` ticks equals vehicle `a`
  stepped `n` times only under the same assumption, that every request of
  those ticks has settled.
- Route geometries are taken to be LineStrings: `coordinates` is a list of
  `[lon, lat]` points. For a Point, `coordinates` is two numbers and
  destructuring one of them throws outside the `try`. For a
  MultiLineString, each element is a whole line. Neither case is modelled.
- App.Handle: requests are served one at a time against one in-memory
  registry. A listing that races with an update adding an id on another
  server thread makes the program's dict iteration fail with a 500; that
  interleaving is not modelled.
- MainActivity.java (the Android client) is not part of this model.
