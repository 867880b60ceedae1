/** Coordinates, road distances and the road-service oracle.

    The routing service is an HTTP call in the application; here it is a pure
    function from two coordinates to a `Leg`: the road geometry and the
    distance in kilometres, `Inf` when no route was found. */
module Geo {

  /** A map coordinate. The model never computes on coordinates. */
  datatype LatLng = LatLng(lat: real, lng: real)

  /** A non-negative road distance in kilometres. */
  type Km = r: real | r >= 0.0

  /** A distance as a JavaScript number carries it here: finite, or `Infinity`. */
  datatype Dist = Fin(km: Km) | Inf

  /** JavaScript `a + b` on distances: `Infinity` absorbs everything. */
  function Add(a: Dist, b: Dist): Dist {
    match (a, b)
    case (Fin(x), Fin(y)) => Fin(x + y)
    case _ => Inf
  }

  /** JavaScript `a < b` on distances: `Infinity < Infinity` is false. */
  predicate Less(a: Dist, b: Dist) {
    match (a, b)
    case (Fin(x), Fin(y)) => x < y
    case (Fin(_), Inf) => true
    case (Inf, _) => false
  }

  /** `a <= b`, the negation of `b < a`. */
  predicate Le(a: Dist, b: Dist) {
    !Less(b, a)
  }

  /** One answer of the road service between two points. */
  datatype Leg = Leg(coords: seq<LatLng>, dist: Dist)

  type Road = (LatLng, LatLng) -> Leg

  /** The distance of the chain of road legs through `pts`, accumulated left
      to right from 0 as every loop of the route optimizer does. */
  function Length(road: Road, pts: seq<LatLng>): Dist
    decreases |pts|
  {
    if |pts| < 2 then Fin(0.0)
    else Add(Length(road, pts[..|pts| - 1]), road(pts[|pts| - 2], pts[|pts| - 1]).dist)
  }

  /** The road geometry of the chain of legs through `pts`: the legs'
      coordinate lists, concatenated in order. */
  function Trace(road: Road, pts: seq<LatLng>): seq<LatLng>
    decreases |pts|
  {
    if |pts| < 2 then []
    else Trace(road, pts[..|pts| - 1]) + road(pts[|pts| - 2], pts[|pts| - 1]).coords
  }

  lemma AddAssoc(a: Dist, b: Dist, c: Dist)
    ensures Add(Add(a, b), c) == Add(a, Add(b, c))
  {
  }

  /** An unreachable leg anywhere makes the whole chain unreachable, and a
      reachable chain has every prefix reachable. */
  lemma {:induction false} LengthPrefix(road: Road, p: seq<LatLng>, q: seq<LatLng>)
    requires |p| > 0
    ensures Length(road, p).Inf? ==> Length(road, p + q).Inf?
    decreases |q|
  {
    if |q| > 0 {
      var pq := p + q;
      assert pq[..|pq| - 1] == p + q[..|q| - 1];
      LengthPrefix(road, p, q[..|q| - 1]);
    } else {
      assert p + q == p;
    }
  }
}
