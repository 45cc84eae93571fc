/**
 The simulation-data generator: two vehicles for every route feature, in
 route order, each named `<mode>_<routeIndex>_<n>` and started at a random
 point of its route. `Math.random()` is modelled by one draw in [0, 1) per
 vehicle, in the order the vehicles are pushed; writing the JSON file is
 left to the caller.
 */
module SimulationData {
  import opened Common
  import opened Text
  import opened Routes

  /** Vehicles generated per route. */
  const PerRoute: nat := 2

  /** `feature.properties?.mode || "Unknown"`. */
  function ModeOf(f: Feature): (mode: string)
    ensures f.properties.Some? && Truthy(f.properties.value.mode) ==> mode == f.properties.value.mode.value
    ensures !(f.properties.Some? && Truthy(f.properties.value.mode)) ==> mode == "Unknown"
    ensures mode != []
  {
    if f.properties.Some? && Truthy(f.properties.value.mode) then f.properties.value.mode.value else "Unknown"
  }

  /** `feature.geometry.coordinates` can be read and has a length. */
  predicate HasPath(f: Feature)
  {
    f.geometry.Some? && f.geometry.value.coordinates.Some?
  }

  /** `<slug>_<routeIndex>_<n>`. */
  function GeneratedId(mode: string, routeIndex: nat, n: nat): string
  {
    Slug(mode) + "_" + NatToString(routeIndex) + "_" + NatToString(n)
  }

  /** The shape of a generated id: split at its last `_`, it gives the
      vehicle number in decimal; the part before, split at its last `_`,
      gives the mode's slug and the route index in decimal. */
  lemma GeneratedIdFormat(mode: string, routeIndex: nat, n: nat)
    ensures SplitLast(GeneratedId(mode, routeIndex, n), '_') == Some((Slug(mode) + "_" + NatToString(routeIndex), NatToString(n)))
    ensures SplitLast(Slug(mode) + "_" + NatToString(routeIndex), '_') == Some((Slug(mode), NatToString(routeIndex)))
  {
    var front := Slug(mode) + "_" + NatToString(routeIndex);
    NoUnderscoreInNumber(routeIndex);
    NoUnderscoreInNumber(n);
    assert GeneratedId(mode, routeIndex, n) == front + ['_'] + NatToString(n);
    SplitLastJoin(front, '_', NatToString(n));
    assert front == Slug(mode) + ['_'] + NatToString(routeIndex);
    SplitLastJoin(Slug(mode), '_', NatToString(routeIndex));
  }

  /** Reads slug, route index and vehicle number back out of a generated id,
      splitting at its last two `_`. */
  function ParseGeneratedId(id: string): Option<(string, nat, nat)>
  {
    match SplitLast(id, '_')
    case None => None
    case Some((front, nDigits)) =>
      match SplitLast(front, '_')
      case None => None
      case Some((slug, kDigits)) =>
        match (ParseNat(kDigits), ParseNat(nDigits))
        case (Some(k), Some(n)) => Some((slug, k, n))
        case _ => None
  }

  /** Parsing a generated id gives back its slug, route index and number,
      even when the mode itself contains `_` or digits. */
  lemma {:induction false} ParseGeneratedIdRoundTrip(mode: string, routeIndex: nat, n: nat)
    ensures ParseGeneratedId(GeneratedId(mode, routeIndex, n)) == Some((Slug(mode), routeIndex, n))
  {
    GeneratedIdFormat(mode, routeIndex, n);
    ParseNatToString(routeIndex);
    ParseNatToString(n);
  }

  /** Two generated ids are equal only for the same route and number. */
  lemma GeneratedIdInjective(m1: string, k1: nat, n1: nat, m2: string, k2: nat, n2: nat)
    requires GeneratedId(m1, k1, n1) == GeneratedId(m2, k2, n2)
    ensures k1 == k2 && n1 == n2 && Slug(m1) == Slug(m2)
  {
    ParseGeneratedIdRoundTrip(m1, k1, n1);
    ParseGeneratedIdRoundTrip(m2, k2, n2);
  }

  /** A start index for a path: on the path when it has points, 0 when it
      is empty (`Math.floor(r * 0)`). */
  predicate StartsOnPath(v: Vehicle)
  {
    if |v.path| > 0 then v.positionIndex < |v.path| else v.positionIndex == 0
  }

  /** The two vehicles of the route at `routeIndex`, or the TypeError. */
  function PairFor(f: Feature, routeIndex: nat, d1: real, d2: real): (r: Result<seq<Vehicle>, Error>)
    requires IsDraw(d1) && IsDraw(d2)
    ensures r.Err? <==> !HasPath(f)
    ensures r.Ok? ==> |r.value| == PerRoute && forall i :: 0 <= i < PerRoute ==>
              && r.value[i].id == GeneratedId(ModeOf(f), routeIndex, i + 1)
              && r.value[i].mode == ModeOf(f)
              && r.value[i].path == f.geometry.value.coordinates.value
              && StartsOnPath(r.value[i])
  {
    if !HasPath(f) then Err(TypeError)
    else
      var mode := ModeOf(f);
      var path := f.geometry.value.coordinates.value;
      Ok([Vehicle(GeneratedId(mode, routeIndex, 1), mode, path, StartIndex(d1, |path|)),
          Vehicle(GeneratedId(mode, routeIndex, 2), mode, path, StartIndex(d2, |path|))])
  }

  /** The vehicles generated for the routes from `routeIndex` on, two per
      route; any route without geometry or coordinates ends the whole
      script. */
  function GenerateFrom(features: seq<Feature>, routeIndex: nat, draws: seq<real>): (r: Result<seq<Vehicle>, Error>)
    requires routeIndex <= |features| && |draws| >= PerRoute * |features| && AllDraws(draws)
    decreases |features| - routeIndex
    ensures r.Err? <==> exists j :: routeIndex <= j < |features| && !HasPath(features[j])
    ensures r.Ok? ==> |r.value| == PerRoute * (|features| - routeIndex)
  {
    if routeIndex == |features| then Ok([])
    else
      var f := features[routeIndex];
      match PairFor(f, routeIndex, draws[PerRoute * routeIndex], draws[PerRoute * routeIndex + 1])
      case Err(e) => Err(e)
      case Ok(pair) =>
        match GenerateFrom(features, routeIndex + 1, draws)
        case Err(e) => Err(e)
        case Ok(rest) => Ok(pair + rest)
  }

  /** `v` is vehicle number `i + 1` of the route at `route`: named
      `<slug>_<route>_<i + 1>`, with the route's raw mode (or "Unknown") and
      unchanged path, started on the path. */
  predicate VehicleOfRoute(features: seq<Feature>, route: nat, i: nat, v: Vehicle)
    requires route < |features|
  {
    var f := features[route];
    && v.id == GeneratedId(ModeOf(f), route, i + 1)
    && v.mode == ModeOf(f)
    && HasPath(f)
    && v.path == f.geometry.value.coordinates.value
    && StartsOnPath(v)
  }

  /** A successful run from `routeIndex` is that route's pair, drawn with
      the next two draws, followed by a successful run from the next route. */
  lemma GenerateFromStep(features: seq<Feature>, routeIndex: nat, draws: seq<real>)
    requires routeIndex < |features| && |draws| >= PerRoute * |features| && AllDraws(draws)
    requires GenerateFrom(features, routeIndex, draws).Ok?
    ensures PairFor(features[routeIndex], routeIndex, draws[PerRoute * routeIndex], draws[PerRoute * routeIndex + 1]).Ok?
    ensures GenerateFrom(features, routeIndex + 1, draws).Ok?
    ensures GenerateFrom(features, routeIndex, draws).value
         == PairFor(features[routeIndex], routeIndex, draws[PerRoute * routeIndex], draws[PerRoute * routeIndex + 1]).value
          + GenerateFrom(features, routeIndex + 1, draws).value
  {
  }

  /** Both vehicles of an accepted pair belong to the pair's route. */
  lemma PairContents(features: seq<Feature>, routeIndex: nat, d1: real, d2: real)
    requires routeIndex < |features| && IsDraw(d1) && IsDraw(d2)
    requires PairFor(features[routeIndex], routeIndex, d1, d2).Ok?
    ensures var pair := PairFor(features[routeIndex], routeIndex, d1, d2).value;
            forall i :: 0 <= i < |pair| ==> VehicleOfRoute(features, routeIndex, i, pair[i])
  {
  }

  /** Entry `a` of the list generated from `routeIndex` on is vehicle number
      `a % PerRoute + 1` of route `routeIndex + a / PerRoute`. */
  lemma {:induction false} GenerateFromContents(features: seq<Feature>, routeIndex: nat, draws: seq<real>)
    requires routeIndex <= |features| && |draws| >= PerRoute * |features| && AllDraws(draws)
    requires GenerateFrom(features, routeIndex, draws).Ok?
    decreases |features| - routeIndex
    ensures var vs := GenerateFrom(features, routeIndex, draws).value;
            forall a :: 0 <= a < |vs| ==>
              routeIndex + a / PerRoute < |features| && VehicleOfRoute(features, routeIndex + a / PerRoute, a % PerRoute, vs[a])
  {
    if routeIndex < |features| {
      var d1, d2 := draws[PerRoute * routeIndex], draws[PerRoute * routeIndex + 1];
      var pair := PairFor(features[routeIndex], routeIndex, d1, d2).value;
      var rest := GenerateFrom(features, routeIndex + 1, draws).value;
      var vs := GenerateFrom(features, routeIndex, draws).value;
      GenerateFromStep(features, routeIndex, draws);
      PairContents(features, routeIndex, d1, d2);
      GenerateFromContents(features, routeIndex + 1, draws);
      forall a | 0 <= a < |vs|
        ensures routeIndex + a / PerRoute < |features| && VehicleOfRoute(features, routeIndex + a / PerRoute, a % PerRoute, vs[a])
      {
        ContentsEntry(features, routeIndex, pair, rest, a);
      }
    }
  }

  /** One entry of `pair + rest`, from what is known of the pair and of the
      list generated from the next route on. */
  lemma ContentsEntry(features: seq<Feature>, routeIndex: nat, pair: seq<Vehicle>, rest: seq<Vehicle>, a: nat)
    requires routeIndex < |features| && |pair| == PerRoute && a < |pair + rest|
    requires forall i :: 0 <= i < |pair| ==> VehicleOfRoute(features, routeIndex, i, pair[i])
    requires forall b :: 0 <= b < |rest| ==>
               routeIndex + 1 + b / PerRoute < |features| && VehicleOfRoute(features, routeIndex + 1 + b / PerRoute, b % PerRoute, rest[b])
    ensures routeIndex + a / PerRoute < |features| && VehicleOfRoute(features, routeIndex + a / PerRoute, a % PerRoute, (pair + rest)[a])
  {
    if a >= PerRoute {
      var b := a - PerRoute;
      assert (pair + rest)[a] == rest[b];
      HalfShift(a);
      assert VehicleOfRoute(features, routeIndex + 1 + b / PerRoute, b % PerRoute, rest[b]);
    } else {
      assert (pair + rest)[a] == pair[a];
      assert a / PerRoute == 0 && a % PerRoute == a;
    }
  }

  /** Two entries further on is one route further on, same vehicle number. */
  lemma HalfShift(a: nat)
    requires a >= PerRoute
    ensures (a - PerRoute) / PerRoute == a / PerRoute - 1 && (a - PerRoute) % PerRoute == a % PerRoute
  {
  }

  /** The generated vehicle list (what the script writes): two vehicles per
      route, in route order. */
  function Generate(features: seq<Feature>, draws: seq<real>): (r: Result<seq<Vehicle>, Error>)
    requires |draws| >= PerRoute * |features| && AllDraws(draws)
    ensures r.Err? <==> exists j :: 0 <= j < |features| && !HasPath(features[j])
    ensures r.Ok? ==> |r.value| == PerRoute * |features|
  {
    GenerateFrom(features, 0, draws)
  }

  /** The generated list is ordered by route, then by vehicle number:
      entry `a` is vehicle number `a % PerRoute + 1` of route `a / PerRoute`. */
  lemma GenerateContents(features: seq<Feature>, draws: seq<real>)
    requires |draws| >= PerRoute * |features| && AllDraws(draws)
    requires Generate(features, draws).Ok?
    ensures var vs := Generate(features, draws).value;
            forall a :: 0 <= a < |vs| ==> a / PerRoute < |features| && VehicleOfRoute(features, a / PerRoute, a % PerRoute, vs[a])
  {
    GenerateFromContents(features, 0, draws);
  }

  /** No two generated vehicles share an id, whatever the modes. */
  lemma GeneratedIdsDistinct(features: seq<Feature>, draws: seq<real>)
    requires |draws| >= PerRoute * |features| && AllDraws(draws)
    requires Generate(features, draws).Ok?
    ensures var vs := Generate(features, draws).value;
            forall a, b :: 0 <= a < b < |vs| ==> vs[a].id != vs[b].id
  {
    var vs := Generate(features, draws).value;
    GenerateContents(features, draws);
    forall a, b | 0 <= a < b < |vs|
      ensures vs[a].id != vs[b].id
    {
      if vs[a].id == vs[b].id {
        GeneratedIdInjective(ModeOf(features[a / PerRoute]), a / PerRoute, a % PerRoute + 1, ModeOf(features[b / PerRoute]), b / PerRoute, b % PerRoute + 1);
      }
    }
  }

  lemma LowerUnknown()
    ensures Lower("Unknown") == "unknown"
  {
  }

  /** The default mode "Unknown" slugs to "unknown". */
  lemma UnknownSlug()
    ensures Slug("Unknown") == "unknown"
  {
    SlugWithoutWhitespace("Unknown");
    LowerUnknown();
  }

  /** A route without a usable mode gives vehicles of mode "Unknown" whose
      ids start with "unknown". */
  lemma UnknownModeId(f: Feature, routeIndex: nat, n: nat)
    requires !(f.properties.Some? && Truthy(f.properties.value.mode))
    ensures ModeOf(f) == "Unknown"
    ensures GeneratedId(ModeOf(f), routeIndex, n) == "unknown" + "_" + NatToString(routeIndex) + "_" + NatToString(n)
  {
    UnknownSlug();
  }
}
