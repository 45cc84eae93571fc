/**
 The full backend variant: an in-memory registry `vehicle_data` mapping a
 vehicle id to its last reported position, normalised transport mode and
 report time, behind three endpoints: update (validate, then replace the
 whole record), list (a snapshot with an age-based ETA) and delete.

 Query arguments arrive as optional strings. Coordinates are read by a
 `Parser` standing for Python's `float(...)`; when it fails the handler
 raises and Flask answers with its 500 page. `now` stands for `time.time()`.
 */
module App {
  import opened Common
  import opened Text
  import opened Eta

  /** One entry of `vehicle_data`. The mode is optional because the listing
      reads it with `info.get("mode", "unknown")`; every record written by
      `UpdateLocationHandler` has one. */
  datatype Record = Record(lat: real, lon: real, mode: Option<string>, lastUpdate: int)

  type Store = map<string, Record>

  /** The query arguments of `/api/location/update`; `None` when absent. */
  datatype UpdateArgs = UpdateArgs(id: Option<string>, lat: Option<string>, lon: Option<string>, mode: Option<string>)

  /** One vehicle of the `/api/vehicles` answer. */
  datatype Listing = Listing(lat: real, lon: real, mode: string, etaMin: int)

  datatype Status = OK | BadRequest | NotFound

  /** What an endpoint answers: a text body with a status, the JSON fleet
      snapshot (status 200), or Flask's 500 page after an uncaught exception. */
  datatype Reply = Message(status: Status, body: string) | Fleet(vehicles: map<string, Listing>) | ServerError

  function StatusCode(r: Reply): (code: nat)
    ensures code in {200, 400, 404, 500}
    ensures code == 200 <==> r.Fleet? || (r.Message? && r.status == OK)
  {
    match r
    case Message(OK, _) => 200
    case Message(BadRequest, _) => 400
    case Message(NotFound, _) => 404
    case Fleet(_) => 200
    case ServerError => 500
  }

  /** The store after a request, and the reply sent back. */
  datatype Served = Served(store: Store, reply: Reply)

  datatype Request =
    | UpdateLocation(args: UpdateArgs)
    | GetVehicles
    | DeleteVehicle(id: Option<string>)

  // ---------------------------------------------------------------------
  // update_location

  /** `mode.strip().lower()`: the mode as stored. It has no surrounding
      whitespace and no upper-case letter, and it is empty exactly when the
      reported mode is all whitespace. */
  function NormalizeMode(mode: string): (r: string)
    ensures |r| == 0 || (!IsPyWhitespace(r[0]) && !IsPyWhitespace(r[|r| - 1]))
    ensures forall i :: 0 <= i < |r| ==> !('A' <= r[i] <= 'Z')
    ensures r == [] <==> forall i :: 0 <= i < |mode| ==> IsPyWhitespace(mode[i])
  {
    var stripped := Strip(mode);
    LowerKeepsWhitespace(stripped);
    Lower(stripped)
  }

  /** Normalising an already normalised mode changes nothing. */
  lemma NormalizeModeIdempotent(mode: string)
    ensures NormalizeMode(NormalizeMode(mode)) == NormalizeMode(mode)
  {
    var m := NormalizeMode(mode);
    StripTrimmed(m);
    LowerIdempotent(Strip(mode));
  }

  /** `all([vehicle_id, lat, lon, mode])`: every argument is present and
      non-empty. */
  function HasAllArgs(args: UpdateArgs): (r: bool)
    ensures r <==> Truthy(args.id) && Truthy(args.lat) && Truthy(args.lon) && Truthy(args.mode)
  {
    var all := [args.id, args.lat, args.lon, args.mode];
    assert all[0] == args.id && all[1] == args.lat && all[2] == args.lon && all[3] == args.mode;
    AllTruthy(all)
  }

  /** `update_location`: a request missing any argument (absent or empty) is
      refused with 400 and changes nothing; one whose coordinates do not
      parse raises (500) before the store is touched; otherwise the record of
      `id` is replaced as a whole by the parsed coordinates, the normalised
      mode and `now`, and every other entry is left as it was. */
  function UpdateLocationHandler(store: Store, args: UpdateArgs, now: int, parse: Parser): (r: Served)
    ensures !HasAllArgs(args) ==> r == Served(store, Message(BadRequest, "Missing parameters"))
    ensures HasAllArgs(args) && (parse(args.lat.value).None? || parse(args.lon.value).None?) ==>
              r == Served(store, ServerError)
    ensures HasAllArgs(args) && parse(args.lat.value).Some? && parse(args.lon.value).Some? ==>
              && r.reply == Message(OK, "Location updated for " + args.id.value)
              && r.store.Keys == store.Keys + {args.id.value}
              && r.store[args.id.value] ==
                   Record(parse(args.lat.value).value, parse(args.lon.value).value,
                          Some(NormalizeMode(args.mode.value)), now)
              && (forall k :: k in store && k != args.id.value ==> r.store[k] == store[k])
  {
    if !HasAllArgs(args) then
      Served(store, Message(BadRequest, "Missing parameters"))
    else
      match (parse(args.lat.value), parse(args.lon.value))
      case (Some(lat), Some(lon)) =>
        var id := args.id.value;
        Served(store[id := Record(lat, lon, Some(NormalizeMode(args.mode.value)), now)],
               Message(OK, "Location updated for " + id))
      case _ => Served(store, ServerError)
  }

  // ---------------------------------------------------------------------
  // get_vehicles

  /** `get_vehicles`: one listing per stored id, carrying the stored
      coordinates, the stored mode (or "unknown" when the record has none)
      and the estimate for the record's age at `now`. A record reported no
      later than `now` is listed at least five minutes away. */
  function ListVehicles(store: Store, now: int): (r: map<string, Listing>)
    ensures r.Keys == store.Keys
    ensures forall id :: id in store ==>
              && r[id].lat == store[id].lat
              && r[id].lon == store[id].lon
              && (store[id].mode.Some? ==> r[id].mode == store[id].mode.value)
              && (store[id].mode.None? ==> r[id].mode == "unknown")
              && RoundsHalfEven(5.0 + (now - store[id].lastUpdate) as real / 60.0, r[id].etaMin)
              && (store[id].lastUpdate <= now ==> r[id].etaMin >= 5)
  {
    map id | id in store ::
      Listing(store[id].lat, store[id].lon, store[id].mode.GetOr("unknown"),
              EtaMinutes(now - store[id].lastUpdate))
  }

  // ---------------------------------------------------------------------
  // delete_vehicle

  /** `delete_vehicle`: without an id (absent or empty) the request is
      refused with 400; a stored id is removed, leaving every other entry,
      with 200; an unknown id is answered 404 and changes nothing. */
  function DeleteVehicleHandler(store: Store, id: Option<string>): (r: Served)
    ensures !Truthy(id) ==> r == Served(store, Message(BadRequest, "Vehicle ID required"))
    ensures Truthy(id) && id.value in store ==>
              && r.reply == Message(OK, "Deleted vehicle " + id.value)
              && r.store.Keys == store.Keys - {id.value}
              && (forall k :: k in r.store ==> r.store[k] == store[k])
    ensures Truthy(id) && id.value !in store ==> r == Served(store, Message(NotFound, "Vehicle not found"))
  {
    if !Truthy(id) then
      Served(store, Message(BadRequest, "Vehicle ID required"))
    else if id.value in store then
      Served(store - {id.value}, Message(OK, "Deleted vehicle " + id.value))
    else
      Served(store, Message(NotFound, "Vehicle not found"))
  }

  // ---------------------------------------------------------------------
  // The three endpoints together

  /** Serves one request. Listing never changes the store; only a successful
      update or delete does, and only at the requested id. */
  function Handle(store: Store, req: Request, now: int, parse: Parser): (r: Served)
    ensures req.GetVehicles? ==> r.store == store && r.reply.Fleet? && r.reply.vehicles.Keys == store.Keys
    ensures StatusCode(r.reply) != 200 ==> r.store == store
    ensures forall k :: k in store && k !in r.store ==> req.DeleteVehicle? && req.id == Some(k)
    ensures forall k :: k in r.store && (k !in store || r.store[k] != store[k]) ==>
              req.UpdateLocation? && req.args.id == Some(k)
  {
    match req
    case UpdateLocation(args) => UpdateLocationHandler(store, args, now, parse)
    case GetVehicles => Served(store, Fleet(ListVehicles(store, now)))
    case DeleteVehicle(id) => DeleteVehicleHandler(store, id)
  }

  // ---------------------------------------------------------------------
  // Properties relating several requests

  /** Whether `args` is an update the handler accepts. */
  predicate Accepted(args: UpdateArgs, parse: Parser)
  {
    HasAllArgs(args) && parse(args.lat.value).Some? && parse(args.lon.value).Some?
  }

  /** A listing taken right after an accepted update shows exactly what was
      written, five minutes away, and every other vehicle as before. */
  lemma UpdateThenList(store: Store, args: UpdateArgs, now: int, parse: Parser)
    requires Accepted(args, parse)
    ensures var after := ListVehicles(UpdateLocationHandler(store, args, now, parse).store, now);
            && after[args.id.value] ==
                 Listing(parse(args.lat.value).value, parse(args.lon.value).value, NormalizeMode(args.mode.value), 5)
            && (forall k :: k in store && k != args.id.value ==> after[k] == ListVehicles(store, now)[k])
  {
    var after := ListVehicles(UpdateLocationHandler(store, args, now, parse).store, now);
    FreshReportEta();
    assert after[args.id.value].etaMin == EtaMinutes(0);
  }

  /** Deleting right after an accepted update succeeds and leaves the store
      as it was without that id: the update is undone when the id was new. */
  lemma UpdateThenDelete(store: Store, args: UpdateArgs, now: int, parse: Parser)
    requires Accepted(args, parse)
    ensures var deleted := DeleteVehicleHandler(UpdateLocationHandler(store, args, now, parse).store, args.id);
            && StatusCode(deleted.reply) == 200
            && deleted.store == store - {args.id.value}
            && (args.id.value !in store ==> deleted.store == store)
  {
    var id := args.id.value;
    var deleted := DeleteVehicleHandler(UpdateLocationHandler(store, args, now, parse).store, args.id);
    assert deleted.store == store - {id};
  }

  /** A second delete of the same id finds nothing: 404, store unchanged. */
  lemma DeleteTwice(store: Store, id: string)
    requires id != []
    ensures var once := DeleteVehicleHandler(store, Some(id));
            DeleteVehicleHandler(once.store, Some(id)) == Served(once.store, Message(NotFound, "Vehicle not found"))
  {
  }

  /** The last write wins: two accepted updates of the same id leave the
      store as the second alone would; nothing of the first survives. */
  lemma LastWriteWins(store: Store, a: UpdateArgs, b: UpdateArgs, t1: int, t2: int, parse: Parser)
    requires Accepted(a, parse) && Accepted(b, parse) && a.id == b.id
    ensures UpdateLocationHandler(UpdateLocationHandler(store, a, t1, parse).store, b, t2, parse).store
         == UpdateLocationHandler(store, b, t2, parse).store
  {
  }

  /** Updates of different vehicles do not interfere: either order gives the
      same store. */
  lemma UpdatesCommute(store: Store, a: UpdateArgs, b: UpdateArgs, t1: int, t2: int, parse: Parser)
    requires Accepted(a, parse) && Accepted(b, parse) && a.id != b.id
    ensures UpdateLocationHandler(UpdateLocationHandler(store, a, t1, parse).store, b, t2, parse).store
         == UpdateLocationHandler(UpdateLocationHandler(store, b, t2, parse).store, a, t1, parse).store
  {
  }

  /** A mode of blanks is truthy, so it passes validation and is stored as
      the empty mode, which the listing shows as "" rather than "unknown". */
  lemma BlankModeStoredEmpty(store: Store, id: string, lat: string, lon: string, now: int, parse: Parser)
    requires id != [] && lat != [] && lon != []
    requires parse(lat).Some? && parse(lon).Some?
    ensures var r := UpdateLocationHandler(store, UpdateArgs(Some(id), Some(lat), Some(lon), Some("  ")), now, parse);
            && StatusCode(r.reply) == 200
            && ListVehicles(r.store, now)[id].mode == ""
  {
    assert Strip("  ") == [];
  }
}
