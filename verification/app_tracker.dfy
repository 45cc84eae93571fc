/**
 The earlier backend variant: the same in-memory registry of vehicle
 positions, without a transport mode and without a delete endpoint. An
 update needs only `id`, `lat` and `lon`; a listing carries coordinates and
 the age-based ETA.
 */
module AppTracker {
  import opened Common
  import opened Eta

  /** One entry of `vehicle_data`: position and time of the last report. */
  datatype Record = Record(lat: real, lon: real, lastUpdate: int)

  type Store = map<string, Record>

  datatype UpdateArgs = UpdateArgs(id: Option<string>, lat: Option<string>, lon: Option<string>)

  datatype Listing = Listing(lat: real, lon: real, etaMin: int)

  /** A text answer with its status code (200 or 400), the JSON snapshot, or
      Flask's 500 page after an uncaught exception. */
  datatype Reply = Message(code: nat, body: string) | Fleet(vehicles: map<string, Listing>) | ServerError

  datatype Served = Served(store: Store, reply: Reply)

  /** `all([vehicle_id, lat, lon])`: every argument is present and
      non-empty. */
  function HasAllArgs(args: UpdateArgs): (r: bool)
    ensures r <==> Truthy(args.id) && Truthy(args.lat) && Truthy(args.lon)
  {
    var all := [args.id, args.lat, args.lon];
    assert all[0] == args.id && all[1] == args.lat && all[2] == args.lon;
    AllTruthy(all)
  }

  /** `update_location`: a missing or empty argument is refused with 400 and
      changes nothing; coordinates that do not parse raise (500) and change
      nothing; otherwise `id` maps to exactly the parsed coordinates and
      `now`, whatever it held before, and every other entry is kept. */
  function UpdateLocationHandler(store: Store, args: UpdateArgs, now: int, parse: Parser): (r: Served)
    ensures !HasAllArgs(args) ==> r == Served(store, Message(400, "Missing parameters"))
    ensures HasAllArgs(args) && (parse(args.lat.value).None? || parse(args.lon.value).None?) ==>
              r == Served(store, ServerError)
    ensures HasAllArgs(args) && parse(args.lat.value).Some? && parse(args.lon.value).Some? ==>
              && r.reply == Message(200, "Location updated for " + args.id.value)
              && r.store.Keys == store.Keys + {args.id.value}
              && r.store[args.id.value] == Record(parse(args.lat.value).value, parse(args.lon.value).value, now)
              && (forall k :: k in store && k != args.id.value ==> r.store[k] == store[k])
  {
    if !HasAllArgs(args) then
      Served(store, Message(400, "Missing parameters"))
    else
      match (parse(args.lat.value), parse(args.lon.value))
      case (Some(lat), Some(lon)) =>
        Served(store[args.id.value := Record(lat, lon, now)],
               Message(200, "Location updated for " + args.id.value))
      case _ => Served(store, ServerError)
  }

  /** `get_vehicles`: the listing has exactly the stored ids, each with its
      stored coordinates and the estimate for its age at `now`, which is at
      least five minutes for a report no later than `now`. */
  function ListVehicles(store: Store, now: int): (r: map<string, Listing>)
    ensures r.Keys == store.Keys
    ensures forall id :: id in store ==>
              && r[id].lat == store[id].lat
              && r[id].lon == store[id].lon
              && RoundsHalfEven(5.0 + (now - store[id].lastUpdate) as real / 60.0, r[id].etaMin)
              && (store[id].lastUpdate <= now ==> r[id].etaMin >= 5)
  {
    map id | id in store :: Listing(store[id].lat, store[id].lon, EtaMinutes(now - store[id].lastUpdate))
  }

  /** The listing endpoint as served: the snapshot is answered and the store
      handed back untouched. */
  function GetVehiclesHandler(store: Store, now: int): (r: Served)
    ensures r.store == store
    ensures r.reply.Fleet? && r.reply.vehicles.Keys == store.Keys
  {
    Served(store, Fleet(ListVehicles(store, now)))
  }

  predicate Accepted(args: UpdateArgs, parse: Parser)
  {
    HasAllArgs(args) && parse(args.lat.value).Some? && parse(args.lon.value).Some?
  }

  /** Listing right after an accepted update shows the written coordinates
      five minutes away and every other vehicle as before. */
  lemma UpdateThenList(store: Store, args: UpdateArgs, now: int, parse: Parser)
    requires Accepted(args, parse)
    ensures var after := ListVehicles(UpdateLocationHandler(store, args, now, parse).store, now);
            && after[args.id.value] == Listing(parse(args.lat.value).value, parse(args.lon.value).value, 5)
            && (forall k :: k in store && k != args.id.value ==> after[k] == ListVehicles(store, now)[k])
  {
    var after := ListVehicles(UpdateLocationHandler(store, args, now, parse).store, now);
    FreshReportEta();
    assert after[args.id.value].etaMin == EtaMinutes(0);
  }

  /** Every accepted update adds at most one id and never removes one. */
  lemma UpdateGrowsByOne(store: Store, args: UpdateArgs, now: int, parse: Parser)
    requires Accepted(args, parse)
    ensures var after := UpdateLocationHandler(store, args, now, parse).store;
            && store.Keys <= after.Keys
            && |after| == |store| + (if args.id.value in store then 0 else 1)
  {
    var after := UpdateLocationHandler(store, args, now, parse).store;
    if args.id.value !in store {
      assert after.Keys == store.Keys + {args.id.value};
    } else {
      assert after.Keys == store.Keys;
    }
  }
}
