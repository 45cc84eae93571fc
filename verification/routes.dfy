/**
 The route data both simulator scripts read (GeoJSON features with a
 transport mode and a line of positions) and the simulated vehicle they
 build from it.
 */
module Routes {
  import opened Common

  /** A GeoJSON position: longitude first, then latitude. */
  datatype Position = Position(lon: real, lat: real)

  /** `geometry`; `coordinates` may be absent. */
  datatype Geometry = Geometry(coordinates: Option<seq<Position>>)

  /** `properties`; `mode` may be absent. */
  datatype Properties = Properties(mode: Option<string>)

  /** A route feature; `properties` and `geometry` may be absent. */
  datatype Feature = Feature(properties: Option<Properties>, geometry: Option<Geometry>)

  /** How either script dies on malformed route data: the simulator when its
      route search reads `mode` from a feature without `properties`, the
      generator when a feature has no `geometry` or no `coordinates`. Nothing
      is sent or written then. */
  datatype Error = TypeError

  /** A simulated vehicle: its id, the mode it reports, the route it drives
      and the index of its current position on that route. */
  datatype Vehicle = Vehicle(id: string, mode: string, path: seq<Position>, positionIndex: nat)

  /** Values `Math.random()` can return: reals in [0, 1). */
  predicate IsDraw(x: real)
  {
    0.0 <= x < 1.0
  }

  predicate AllDraws(draws: seq<real>)
  {
    forall i :: 0 <= i < |draws| ==> IsDraw(draws[i])
  }

  /** `Math.floor(Math.random() * length)` for the draw `draw`: an index of a
      non-empty path, and 0 for an empty one. */
  function StartIndex(draw: real, length: nat): (k: nat)
    requires IsDraw(draw)
    ensures length > 0 ==> k < length
    ensures length == 0 ==> k == 0
  {
    var x := draw * length as real;
    assert 0.0 <= x <= length as real;
    assert length > 0 ==> x < length as real by {
      if length > 0 {
        assert draw * length as real < 1.0 * length as real;
      }
    }
    x.Floor
  }

  /** Every index is some draw's start index: modelling `Math.random()` by an
      arbitrary draw loses no start position. */
  lemma EveryStartReachable(length: nat, k: nat)
    requires k < length
    ensures IsDraw(k as real / length as real)
    ensures StartIndex(k as real / length as real, length) == k
  {
    var d := k as real / length as real;
    assert d * length as real == k as real;
  }
}
