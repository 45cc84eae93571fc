/**
 The vehicle simulator: one simulated vehicle per supported mode whose first
 matching route has coordinates, each started at a random point of that
 route and then advanced one point per tick, wrapping round at the end.

 `Math.random()` is modelled by draws in [0, 1), one per supported mode;
 the HTTP ping each tick sends is returned as a value.
 */
module VehicleSimulator {
  import opened Common
  import opened Text
  import opened Routes

  const SupportedModes: seq<string> :=
    ["Podapoda", "Keke", "Taxi", "Paratransit Bus", "WAKA FINE Bus", "Motorbike"]

  // ---------------------------------------------------------------------
  // Route search

  /** `f.properties.mode?.toLowerCase() === mode.toLowerCase()`. */
  predicate ModeMatches(p: Properties, mode: string)
  {
    p.mode.Some? && Lower(p.mode.value) == Lower(mode)
  }

  /** A feature the search looks at and passes over. */
  predicate PassedOver(f: Feature, mode: string)
  {
    f.properties.Some? && !ModeMatches(f.properties.value, mode)
  }

  /** `features.find(...)` with the mode test: the index of the first
      feature whose mode equals `mode` up to case, `None` when no feature
      matches, and a TypeError when a feature without properties is reached
      before any match. */
  function FindRoute(features: seq<Feature>, mode: string): (r: Result<Option<nat>, Error>)
    ensures r.Ok? && r.value.Some? ==>
              && r.value.value < |features|
              && features[r.value.value].properties.Some?
              && ModeMatches(features[r.value.value].properties.value, mode)
              && forall j :: 0 <= j < r.value.value ==> PassedOver(features[j], mode)
    ensures r == Ok(None) <==> forall j :: 0 <= j < |features| ==> PassedOver(features[j], mode)
    ensures r.Err? ==>
              exists j :: 0 <= j < |features| && features[j].properties.None?
                          && forall i :: 0 <= i < j ==> PassedOver(features[i], mode)
  {
    if |features| == 0 then Ok(None)
    else
      match features[0].properties
      case None => Err(TypeError)
      case Some(p) =>
        if ModeMatches(p, mode) then Ok(Some(0))
        else
          match FindRoute(features[1..], mode)
          case Ok(Some(k)) => Ok(Some(k + 1))
          case Ok(None) => Ok(None)
          case Err(e) =>
            var j :| 0 <= j < |features| - 1 && features[1..][j].properties.None?
                     && forall i :: 0 <= i < j ==> PassedOver(features[1..][i], mode);
            assert features[j + 1].properties.None?;
            assert forall i :: 1 <= i < j + 1 ==> PassedOver(features[i], mode) by {
              forall i | 1 <= i < j + 1
                ensures PassedOver(features[i], mode)
              {
                assert features[i] == features[1..][i - 1];
              }
            }
            Err(e)
  }

  /** `routeFeature.geometry?.coordinates`, empty when absent. */
  function Coordinates(f: Feature): seq<Position>
  {
    if f.geometry.Some? && f.geometry.value.coordinates.Some? then f.geometry.value.coordinates.value else []
  }

  // ---------------------------------------------------------------------
  // Fleet construction

  /** The id of the vehicle simulating the supported mode at `index`:
      the mode lower-cased without whitespace, `_`, and the index. */
  function SimulatorId(mode: string, index: nat): string
  {
    Slug(mode) + "_" + NatToString(index)
  }

  /** The shape of a simulator id: split at its last `_`, it gives the
      mode's slug and the mode index in decimal. */
  lemma SimulatorIdFormat(mode: string, index: nat)
    ensures SplitLast(SimulatorId(mode, index), '_') == Some((Slug(mode), NatToString(index)))
  {
    NoUnderscoreInNumber(index);
    assert SimulatorId(mode, index) == Slug(mode) + ['_'] + NatToString(index);
    SplitLastJoin(Slug(mode), '_', NatToString(index));
  }

  /** Reads the mode index back out of a simulator id: the number after its
      last `_`. */
  function IndexOfId(id: string): Option<nat>
  {
    match SplitLast(id, '_')
    case None => None
    case Some((_, digits)) => ParseNat(digits)
  }

  lemma {:induction false} IndexOfSimulatorId(mode: string, index: nat)
    ensures IndexOfId(SimulatorId(mode, index)) == Some(index)
  {
    SimulatorIdFormat(mode, index);
    ParseNatToString(index);
  }

  /** Vehicles of different modes never share an id. */
  lemma SimulatorIdInjective(m1: string, i1: nat, m2: string, i2: nat)
    requires SimulatorId(m1, i1) == SimulatorId(m2, i2)
    ensures i1 == i2
  {
    IndexOfSimulatorId(m1, i1);
    IndexOfSimulatorId(m2, i2);
  }

  /** The outcome for the supported mode at `index`: the search's TypeError,
      no vehicle (no match, or the first match has no coordinates), or a
      vehicle on the first match's route at a random start. */
  function VehicleFor(features: seq<Feature>, index: nat, draw: real): (r: Result<Option<Vehicle>, Error>)
    requires index < |SupportedModes| && IsDraw(draw)
    ensures r.Err? <==> FindRoute(features, SupportedModes[index]).Err?
    ensures r.Ok? && r.value.Some? <==>
              && FindRoute(features, SupportedModes[index]).Ok?
              && FindRoute(features, SupportedModes[index]).value.Some?
              && |Coordinates(features[FindRoute(features, SupportedModes[index]).value.value])| > 0
    ensures r.Ok? && r.value.Some? ==>
              var v := r.value.value;
              && v.id == SimulatorId(SupportedModes[index], index)
              && v.mode == SupportedModes[index]
              && v.path == Coordinates(features[FindRoute(features, SupportedModes[index]).value.value])
              && 0 < |v.path| && v.positionIndex < |v.path|
  {
    var mode := SupportedModes[index];
    match FindRoute(features, mode)
    case Err(e) => Err(e)
    case Ok(None) => Ok(None)
    case Ok(Some(k)) =>
      var coords := Coordinates(features[k]);
      if |coords| > 0 then
        Ok(Some(Vehicle(SimulatorId(mode, index), mode, coords, StartIndex(draw, |coords|))))
      else Ok(None)
  }

  /** The outcome of every supported mode, in the order of the list. */
  function Slots(features: seq<Feature>, draws: seq<real>): (slots: seq<Result<Option<Vehicle>, Error>>)
    requires |draws| >= |SupportedModes| && AllDraws(draws)
    ensures |slots| == |SupportedModes|
    ensures forall j :: 0 <= j < |slots| ==> slots[j] == VehicleFor(features, j, draws[j])
  {
    seq(|SupportedModes|, j requires 0 <= j < |SupportedModes| => VehicleFor(features, j, draws[j]))
  }

  /** The `forEach` over the supported modes: pushes each vehicle in turn;
      a TypeError for any mode ends the whole script. */
  function Collect<T, E>(slots: seq<Result<Option<T>, E>>): (r: Result<seq<T>, E>)
    ensures r.Err? <==> exists j :: 0 <= j < |slots| && slots[j].Err?
    ensures r.Ok? ==> |r.value| <= |slots|
  {
    if |slots| == 0 then Ok([])
    else
      match slots[0]
      case Err(e) => Err(e)
      case Ok(slot) =>
        match Collect(slots[1..])
        case Err(e) =>
          assert exists j :: 0 <= j < |slots| && slots[j].Err? by {
            var j :| 0 <= j < |slots| - 1 && slots[1..][j].Err?;
            assert slots[j + 1].Err?;
          }
          Err(e)
        case Ok(rest) => Ok((if slot.Some? then [slot.value] else []) + rest)
  }

  /** `Collect` on a non-empty list: the first slot's vehicle, if any, in
      front of what the rest collects. */
  lemma CollectCons<T, E>(slots: seq<Result<Option<T>, E>>)
    requires |slots| > 0 && Collect(slots).Ok?
    ensures slots[0].Ok? && Collect(slots[1..]).Ok?
    ensures Collect(slots).value ==
              (if slots[0].value.Some? then [slots[0].value.value] else []) + Collect(slots[1..]).value
  {
  }

  /** Where each collected vehicle comes from: `origin[a]` is the slot that
      produced the `a`-th vehicle, and these slots strictly increase, so
      the vehicles keep the order of their slots. */
  lemma {:induction false} CollectOrigins<T, E>(slots: seq<Result<Option<T>, E>>) returns (origin: seq<nat>)
    requires Collect(slots).Ok?
    ensures var fleet := Collect(slots).value;
            && |origin| == |fleet|
            && (forall a :: 0 <= a < |fleet| ==> origin[a] < |slots| && slots[origin[a]] == Ok(Some(fleet[a])))
            && (forall a, b :: 0 <= a < b < |fleet| ==> origin[a] < origin[b])
  {
    if |slots| == 0 {
      origin := [];
    } else {
      CollectCons(slots);
      var tail := slots[1..];
      var o := CollectOrigins(tail);
      var shifted := Shifted(o);
      assert forall i :: 0 <= i < |o| ==> slots[shifted[i]] == tail[o[i]];
      if slots[0].value.Some? {
        origin := [0] + shifted;
      } else {
        origin := shifted;
      }
    }
  }

  /** Every index one further on. */
  function Shifted(o: seq<nat>): (r: seq<nat>)
    ensures |r| == |o| && forall i :: 0 <= i < |o| ==> r[i] == o[i] + 1
  {
    seq(|o|, i requires 0 <= i < |o| => o[i] + 1)
  }

  /** No slot's vehicle is dropped. */
  lemma {:induction false} CollectComplete<T, E>(slots: seq<Result<Option<T>, E>>)
    requires Collect(slots).Ok?
    ensures forall j :: 0 <= j < |slots| && slots[j].Ok? && slots[j].value.Some? ==>
              slots[j].value.value in Collect(slots).value
  {
    if |slots| > 0 {
      var tail := slots[1..];
      CollectCons(slots);
      CollectComplete(tail);
      assert forall j :: 1 <= j < |slots| ==> slots[j] == tail[j - 1];
    }
  }

  /** Collecting keeps only vehicles of the slots, so it keeps any property
      all of them share; here, being drivable. */
  lemma {:induction false} CollectDrivable(slots: seq<Result<Option<Vehicle>, Error>>)
    requires forall j :: 0 <= j < |slots| && slots[j].Ok? && slots[j].value.Some? ==> Drivable(slots[j].value.value)
    ensures Collect(slots).Ok? ==> AllDrivable(Collect(slots).value)
  {
    if |slots| > 0 && Collect(slots).Ok? {
      CollectCons(slots);
      CollectDrivable(slots[1..]);
    }
  }

  /** The supported mode at `j` gets a vehicle: its first matching route
      has coordinates. */
  predicate HasRoute(features: seq<Feature>, j: nat)
    requires j < |SupportedModes|
  {
    var found := FindRoute(features, SupportedModes[j]);
    found.Ok? && found.value.Some? && |Coordinates(features[found.value.value])| > 0
  }

  /** The simulator's fleet: the vehicles of the supported modes that have a
      route, in the order of the list; the script dies if the route search
      for any mode dies. */
  function BuildFleet(features: seq<Feature>, draws: seq<real>): (r: Result<seq<Vehicle>, Error>)
    requires |draws| >= |SupportedModes| && AllDraws(draws)
    ensures r.Err? <==> exists j :: 0 <= j < |SupportedModes| && FindRoute(features, SupportedModes[j]).Err?
    ensures r.Ok? ==> |r.value| <= 6 && AllDrivable(r.value)
  {
    var slots := Slots(features, draws);
    assert forall j :: 0 <= j < |SupportedModes| ==>
             (slots[j].Err? <==> FindRoute(features, SupportedModes[j]).Err?);
    CollectDrivable(slots);
    Collect(slots)
  }

  lemma SupportedModesDistinct(i: nat, j: nat)
    requires i < |SupportedModes| && j < |SupportedModes| && i != j
    ensures SupportedModes[i] != SupportedModes[j]
    ensures Lower(SupportedModes[i]) != Lower(SupportedModes[j])
  {
  }

  /** A vehicle the simulator can drive: a non-empty route and a current
      index on it. */
  predicate Drivable(v: Vehicle)
  {
    0 < |v.path| && v.positionIndex < |v.path|
  }

  /** The fleet the simulator starts with, vehicle by vehicle: `origin[a]`
      is the index of the supported mode the `a`-th vehicle simulates, and
      these indices strictly increase. Each vehicle is named
      `<slug>_<index>` after its mode, reports that mode, and drives, from
      an index on it, the non-empty route of the mode's first matching
      feature. */
  lemma FleetOrigins(features: seq<Feature>, draws: seq<real>) returns (origin: seq<nat>)
    requires |draws| >= |SupportedModes| && AllDraws(draws)
    requires BuildFleet(features, draws).Ok?
    ensures var fleet := BuildFleet(features, draws).value;
            && |origin| == |fleet|
            && (forall a, b :: 0 <= a < b < |fleet| ==> origin[a] < origin[b])
            && forall a :: 0 <= a < |fleet| ==>
                 var j := origin[a];
                 && j < |SupportedModes|
                 && HasRoute(features, j)
                 && fleet[a].id == SimulatorId(SupportedModes[j], j)
                 && fleet[a].mode == SupportedModes[j]
                 && fleet[a].path == Coordinates(features[FindRoute(features, SupportedModes[j]).value.value])
                 && Drivable(fleet[a])
  {
    origin := CollectOrigins(Slots(features, draws));
  }

  /** No two vehicles of the starting fleet share an id. */
  lemma FleetIdsDistinct(features: seq<Feature>, draws: seq<real>)
    requires |draws| >= |SupportedModes| && AllDraws(draws)
    requires BuildFleet(features, draws).Ok?
    ensures var fleet := BuildFleet(features, draws).value;
            forall a, b :: 0 <= a < b < |fleet| ==> fleet[a].id != fleet[b].id
  {
    var fleet := BuildFleet(features, draws).value;
    var origin := FleetOrigins(features, draws);
    forall a, b | 0 <= a < b < |fleet|
      ensures fleet[a].id != fleet[b].id
    {
      if fleet[a].id == fleet[b].id {
        SimulatorIdInjective(SupportedModes[origin[a]], origin[a], SupportedModes[origin[b]], origin[b]);
      }
    }
  }

  /** A supported mode has a vehicle in the starting fleet exactly when its
      first matching feature has coordinates. */
  lemma FleetCoversModes(features: seq<Feature>, draws: seq<real>, j: nat)
    requires |draws| >= |SupportedModes| && AllDraws(draws)
    requires BuildFleet(features, draws).Ok?
    requires j < |SupportedModes|
    ensures var fleet := BuildFleet(features, draws).value;
            HasRoute(features, j) <==> exists a :: 0 <= a < |fleet| && fleet[a].mode == SupportedModes[j]
  {
    var slots := Slots(features, draws);
    var fleet := Collect(slots).value;
    if HasRoute(features, j) {
      CollectComplete(slots);
      var a :| 0 <= a < |fleet| && fleet[a] == slots[j].value.value;
    }
    if a :| 0 <= a < |fleet| && fleet[a].mode == SupportedModes[j] {
      var origin := FleetOrigins(features, draws);
      if origin[a] != j {
        SupportedModesDistinct(origin[a], j);
      }
    }
  }

  // ---------------------------------------------------------------------
  // Driving: updateVehicles

  /** The query a vehicle's ping sends to the backend. */
  datatype Ping = Ping(id: string, lat: real, lon: real, mode: string)

  /** The ping for a vehicle: its id and mode with the point
      `path[positionIndex % path.length]`, read in GeoJSON's `[lon, lat]`
      order. For a drivable vehicle that is the point at its index. */
  function PingOf(v: Vehicle): (p: Ping)
    requires 0 < |v.path|
    ensures p.id == v.id && p.mode == v.mode
    ensures Drivable(v) ==> p.lat == v.path[v.positionIndex].lat && p.lon == v.path[v.positionIndex].lon
  {
    var coord := v.path[v.positionIndex % |v.path|];
    Ping(v.id, coord.lat, coord.lon, v.mode)
  }

  /** `positionIndex = (positionIndex + 1) % path.length`: a drivable
      vehicle moves to the next point of its route, and from the last point
      back to the first; nothing else about it changes. */
  function Step(v: Vehicle): (w: Vehicle)
    requires 0 < |v.path|
    ensures w.id == v.id && w.mode == v.mode && w.path == v.path
    ensures Drivable(w)
    ensures Drivable(v) && v.positionIndex + 1 < |v.path| ==> w.positionIndex == v.positionIndex + 1
    ensures Drivable(v) && v.positionIndex + 1 == |v.path| ==> w.positionIndex == 0
  {
    v.(positionIndex := (v.positionIndex + 1) % |v.path|)
  }

  /** One run of `updateVehicles`: every vehicle pings its current point,
      then steps. */
  datatype Tick = Tick(pings: seq<Ping>, fleet: seq<Vehicle>)

  predicate AllDrivable(fleet: seq<Vehicle>)
  {
    forall a :: 0 <= a < |fleet| ==> Drivable(fleet[a])
  }

  function UpdateVehicles(fleet: seq<Vehicle>): (t: Tick)
    requires AllDrivable(fleet)
    ensures |t.pings| == |fleet| && |t.fleet| == |fleet|
    ensures AllDrivable(t.fleet)
    ensures forall a :: 0 <= a < |fleet| ==>
              && t.pings[a] == PingOf(fleet[a])
              && t.fleet[a] == Step(fleet[a])
  {
    Tick(seq(|fleet|, a requires 0 <= a < |fleet| => PingOf(fleet[a])),
         seq(|fleet|, a requires 0 <= a < |fleet| => Step(fleet[a])))
  }

  /** A vehicle after `n` steps. */
  function StepN(v: Vehicle, n: nat): (w: Vehicle)
    requires Drivable(v)
    ensures Drivable(w) && w.id == v.id && w.mode == v.mode && w.path == v.path
  {
    if n == 0 then v else Step(StepN(v, n - 1))
  }

  /** The fleet after `n` runs of `updateVehicles`. */
  function Run(fleet: seq<Vehicle>, n: nat): (r: seq<Vehicle>)
    requires AllDrivable(fleet)
    ensures |r| == |fleet| && AllDrivable(r)
  {
    if n == 0 then fleet else UpdateVehicles(Run(fleet, n - 1)).fleet
  }

  lemma MulAtLeast(a: int, m: nat)
    requires a >= 1
    ensures a * m >= m
  {
    var k := a - 1;
    assert a * m == k * m + m;
    assert k * m >= 0;
  }

  /** The remainder is the `r` of any decomposition `x == q * m + r` with
      `0 <= r < m`. */
  lemma ModUnique(x: int, m: nat, q: int, r: int)
    requires 0 < m && 0 <= r < m && x == q * m + r
    ensures x % m == r
  {
    var q', r' := x / m, x % m;
    assert x == q' * m + r';
    if q > q' {
      MulAtLeast(q - q', m);
    } else if q < q' {
      MulAtLeast(q' - q, m);
    }
  }

  lemma ModSucc(x: nat, m: nat)
    requires 0 < m
    ensures (x % m + 1) % m == (x + 1) % m
  {
    var q, r := x / m, x % m;
    assert x == q * m + r;
    if r + 1 < m {
      assert x + 1 == q * m + (r + 1);
      ModUnique(x + 1, m, q, r + 1);
      ModUnique(r + 1, m, 0, r + 1);
    } else {
      assert r + 1 == m;
      assert x + 1 == (q + 1) * m + 0;
      ModUnique(x + 1, m, q + 1, 0);
      ModUnique(m, m, 1, 0);
    }
  }

  /** After `n` steps a vehicle is `n` points further along its route,
      counted round the loop. */
  lemma {:induction false} StepNIndex(v: Vehicle, n: nat)
    requires Drivable(v)
    ensures StepN(v, n).positionIndex == (v.positionIndex + n) % |v.path|
  {
    if n > 0 {
      StepNIndex(v, n - 1);
      ModSucc(v.positionIndex + (n - 1), |v.path|);
    }
  }

  /** After as many steps as its route has points, a vehicle is back where
      it started. */
  lemma StepCycle(v: Vehicle)
    requires Drivable(v)
    ensures StepN(v, |v.path|) == v
  {
    StepNIndex(v, |v.path|);
    ModUnique(v.positionIndex + |v.path|, |v.path|, 1, v.positionIndex);
  }

  /** Within one loop every point of the route is reached: point `p` after
      `(p - positionIndex) mod length` steps. */
  lemma EveryPointReached(v: Vehicle, p: nat)
    requires Drivable(v) && p < |v.path|
    ensures var k := (p - v.positionIndex + |v.path|) % |v.path|;
            k < |v.path| && StepN(v, k).positionIndex == p
  {
    var len := |v.path|;
    var k := (p - v.positionIndex + len) % len;
    if v.positionIndex <= p {
      ModUnique(p - v.positionIndex + len, len, 1, p - v.positionIndex);
      StepNIndex(v, k);
      ModUnique(v.positionIndex + k, len, 0, p);
    } else {
      ModUnique(p - v.positionIndex + len, len, 0, p - v.positionIndex + len);
      StepNIndex(v, k);
      ModUnique(v.positionIndex + k, len, 1, p);
    }
  }

  /** Running the fleet moves each vehicle on its own: vehicle `a` after `n`
      runs is vehicle `a` stepped `n` times. */
  lemma {:induction false} RunSteps(fleet: seq<Vehicle>, n: nat, a: nat)
    requires AllDrivable(fleet) && a < |fleet|
    ensures Run(fleet, n)[a] == StepN(fleet[a], n)
  {
    if n > 0 {
      RunSteps(fleet, n - 1, a);
    }
  }
}
