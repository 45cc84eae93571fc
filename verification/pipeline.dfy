/**
 The simulator and the full backend together. Each tick of the simulator
 turns every vehicle into a ping, an update request whose coordinates are
 numbers written out as query text; the backend reads them back with its
 parser. When writing and reading a coordinate round-trips, and the pings
 of one tick arrive one after another, the backend ends up holding every
 simulated vehicle at the point the tick reported, under its own id, with
 the mode lower-cased.
 */
module Pipeline {
  import opened Common
  import opened Text
  import opened Routes
  import App
  import VehicleSimulator

  /** How the simulator's HTTP client writes a number into the query. */
  type Formatter = real -> string

  /** Writing `x` gives non-empty text that the backend parses back to `x`. */
  predicate RoundTrips(format: Formatter, parse: Parser, x: real)
  {
    format(x) != [] && parse(format(x)) == Some(x)
  }

  /** The query arguments of a ping, as the backend receives them. */
  function ArgsOf(p: VehicleSimulator.Ping, format: Formatter): (args: App.UpdateArgs)
    ensures args.id == Some(p.id) && args.mode == Some(p.mode)
    ensures args.lat == Some(format(p.lat)) && args.lon == Some(format(p.lon))
  {
    App.UpdateArgs(Some(p.id), Some(format(p.lat)), Some(format(p.lon)), Some(p.mode))
  }

  /** A ping the backend accepts: non-empty id and mode, coordinates that
      round-trip. */
  predicate Deliverable(p: VehicleSimulator.Ping, format: Formatter, parse: Parser)
  {
    p.id != [] && p.mode != [] && RoundTrips(format, parse, p.lat) && RoundTrips(format, parse, p.lon)
  }

  /** The store after the pings reach the update endpoint in the order
      given, ping `a` handled when the backend's clock reads `times[a]`.
      Updates never remove an id. */
  function Deliver(store: App.Store, pings: seq<VehicleSimulator.Ping>, times: seq<int>,
                   format: Formatter, parse: Parser): (r: App.Store)
    requires |times| == |pings|
    ensures store.Keys <= r.Keys
  {
    if pings == [] then store
    else
      var n := |pings| - 1;
      var before := Deliver(store, pings[..n], times[..n], format, parse);
      App.UpdateLocationHandler(before, ArgsOf(pings[n], format), times[n], parse).store
  }

  /** What a deliverable ping stores: its position, its normalised mode
      and `now`. */
  function Stored(p: VehicleSimulator.Ping, now: int): App.Record
  {
    App.Record(p.lat, p.lon, Some(App.NormalizeMode(p.mode)), now)
  }

  /** A deliverable ping is answered 200, and the store afterwards is the
      store before with the ping's id set to what it stores. */
  lemma PingAccepted(store: App.Store, p: VehicleSimulator.Ping, now: int, format: Formatter, parse: Parser)
    requires Deliverable(p, format, parse)
    ensures var r := App.UpdateLocationHandler(store, ArgsOf(p, format), now, parse);
            && App.StatusCode(r.reply) == 200
            && r.store == store[p.id := Stored(p, now)]
  {
  }

  /** `store` with `keys[a]` set to `vals[a]`, one after another. */
  function Assign<V>(store: map<string, V>, keys: seq<string>, vals: seq<V>): (r: map<string, V>)
    requires |keys| == |vals|
    ensures r.Keys == store.Keys + set k | k in keys
  {
    if keys == [] then store
    else
      var n := |keys| - 1;
      assert (set k | k in keys) == (set k | k in keys[..n]) + {keys[n]} by {
        assert keys == keys[..n] + [keys[n]];
      }
      Assign(store, keys[..n], vals[..n])[keys[n] := vals[n]]
  }

  /** With distinct keys, each key ends up holding its own value, and every
      key not assigned keeps its entry. */
  lemma {:induction false} AssignContents<V>(store: map<string, V>, keys: seq<string>, vals: seq<V>)
    requires |keys| == |vals|
    requires forall a, b :: 0 <= a < b < |keys| ==> keys[a] != keys[b]
    ensures var r := Assign(store, keys, vals);
            && (forall a :: 0 <= a < |keys| ==> keys[a] in r && r[keys[a]] == vals[a])
            && (forall k :: k in store && k !in keys ==> r[k] == store[k])
  {
    if keys != [] {
      var n := |keys| - 1;
      AssignContents(store, keys[..n], vals[..n]);
      var r := Assign(store, keys, vals);
      forall a | 0 <= a < n
        ensures keys[a] in r && r[keys[a]] == vals[a]
      {
        assert keys[..n][a] == keys[a] && vals[..n][a] == vals[a];
      }
      forall k | k in store && k !in keys
        ensures r[k] == store[k]
      {
        assert k !in keys[..n];
      }
    }
  }

  /** The ids the pings carry, in order. */
  function IdsOf(pings: seq<VehicleSimulator.Ping>): (ids: seq<string>)
    ensures |ids| == |pings| && forall a :: 0 <= a < |pings| ==> ids[a] == pings[a].id
  {
    seq(|pings|, a requires 0 <= a < |pings| => pings[a].id)
  }

  /** The records the pings store, in order, each stamped with its own time. */
  function StoredAll(pings: seq<VehicleSimulator.Ping>, times: seq<int>): (recs: seq<App.Record>)
    requires |times| == |pings|
    ensures |recs| == |pings| && forall a :: 0 <= a < |pings| ==> recs[a] == Stored(pings[a], times[a])
  {
    seq(|pings|, a requires 0 <= a < |pings| => Stored(pings[a], times[a]))
  }

  /** Deliverable pings leave exactly the store that assigning each ping's
      record to its id gives. */
  lemma {:induction false} DeliverWrites(store: App.Store, pings: seq<VehicleSimulator.Ping>, times: seq<int>,
                                         format: Formatter, parse: Parser)
    requires |times| == |pings|
    requires forall a :: 0 <= a < |pings| ==> Deliverable(pings[a], format, parse)
    ensures Deliver(store, pings, times, format, parse) == Assign(store, IdsOf(pings), StoredAll(pings, times))
  {
    if pings != [] {
      var n := |pings| - 1;
      var before := Deliver(store, pings[..n], times[..n], format, parse);
      DeliverWrites(store, pings[..n], times[..n], format, parse);
      PingAccepted(before, pings[n], times[n], format, parse);
      AssignLast(store, pings, times);
    }
  }

  /** Assigning the records of a non-empty list of pings is assigning all
      but the last, then the last. */
  lemma AssignLast(store: App.Store, pings: seq<VehicleSimulator.Ping>, times: seq<int>)
    requires pings != [] && |times| == |pings|
    ensures var n := |pings| - 1;
            Assign(store, IdsOf(pings), StoredAll(pings, times)) ==
              Assign(store, IdsOf(pings[..n]), StoredAll(pings[..n], times[..n]))[pings[n].id := Stored(pings[n], times[n])]
  {
    var n := |pings| - 1;
    assert IdsOf(pings)[..n] == IdsOf(pings[..n]);
    assert StoredAll(pings, times)[..n] == StoredAll(pings[..n], times[..n]);
  }

  /** After deliverable pings with distinct ids, the store holds what each
      ping stores under its id, stamped with that ping's own time, and every
      id no ping names keeps its entry. */
  lemma DeliverAll(store: App.Store, pings: seq<VehicleSimulator.Ping>, times: seq<int>,
                   format: Formatter, parse: Parser)
    requires |times| == |pings|
    requires forall a :: 0 <= a < |pings| ==> Deliverable(pings[a], format, parse)
    requires forall a, b :: 0 <= a < b < |pings| ==> pings[a].id != pings[b].id
    ensures var r := Deliver(store, pings, times, format, parse);
            && (forall a :: 0 <= a < |pings| ==> pings[a].id in r && r[pings[a].id] == Stored(pings[a], times[a]))
            && (forall k :: k in store && k !in IdsOf(pings) ==> r[k] == store[k])
  {
    var ids, recs := IdsOf(pings), StoredAll(pings, times);
    DeliverWrites(store, pings, times, format, parse);
    AssignContents(store, ids, recs);
  }

  /** Every supported mode is stored as its plain lower-case form: the
      supported names carry no surrounding whitespace. */
  lemma SupportedModeStored(j: nat)
    requires j < |VehicleSimulator.SupportedModes|
    ensures App.NormalizeMode(VehicleSimulator.SupportedModes[j]) == Lower(VehicleSimulator.SupportedModes[j])
  {
    StripTrimmed(VehicleSimulator.SupportedModes[j]);
  }

  /** One tick of a freshly built fleet, delivered in order, whose
      coordinates are written as text the backend reads back: the backend
      then holds every simulated vehicle, under its id, at the point of its
      route it started on, with its mode lower-cased and stamped with the
      time its own request was handled. */
  lemma FirstTickReachesBackend(features: seq<Feature>, draws: seq<real>, store: App.Store, times: seq<int>,
                                format: Formatter, parse: Parser)
    requires |draws| >= |VehicleSimulator.SupportedModes| && AllDraws(draws)
    requires VehicleSimulator.BuildFleet(features, draws).Ok?
    requires |times| == |VehicleSimulator.BuildFleet(features, draws).value|
    requires var fleet := VehicleSimulator.BuildFleet(features, draws).value;
             forall a :: 0 <= a < |fleet| && fleet[a].positionIndex < |fleet[a].path| ==>
               var p := fleet[a].path[fleet[a].positionIndex];
               RoundTrips(format, parse, p.lat) && RoundTrips(format, parse, p.lon)
    ensures var fleet := VehicleSimulator.BuildFleet(features, draws).value;
            var r := Deliver(store, VehicleSimulator.UpdateVehicles(fleet).pings, times, format, parse);
            forall a :: 0 <= a < |fleet| ==>
              var v := fleet[a];
              v.id in r && r[v.id] == App.Record(v.path[v.positionIndex].lat, v.path[v.positionIndex].lon,
                                                 Some(Lower(v.mode)), times[a])
  {
    var fleet := VehicleSimulator.BuildFleet(features, draws).value;
    var pings := VehicleSimulator.UpdateVehicles(fleet).pings;
    var origin := VehicleSimulator.FleetOrigins(features, draws);
    VehicleSimulator.FleetIdsDistinct(features, draws);
    forall a | 0 <= a < |pings|
      ensures Deliverable(pings[a], format, parse)
      ensures App.NormalizeMode(pings[a].mode) == Lower(fleet[a].mode)
    {
      SupportedModeStored(origin[a]);
      NonEmptySimulatorId(VehicleSimulator.SupportedModes[origin[a]], origin[a]);
    }
    DeliverAll(store, pings, times, format, parse);
  }

  /** A simulator id is never empty: it always holds the `_`. */
  lemma NonEmptySimulatorId(mode: string, index: nat)
    ensures VehicleSimulator.SimulatorId(mode, index) != []
  {
    assert '_' in VehicleSimulator.SimulatorId(mode, index);
  }
}
