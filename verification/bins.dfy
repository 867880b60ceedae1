/** The bin entity and the list views the route optimizer takes of it. */
module Bins {
  import opened Geo

  /** `'red'` (needs collection) or `'green'` (clean). */
  datatype Status = Red | Green

  /** A placed bin. Ids come from the placement dialog and are not unique in
      general (see `MapPlacement.IdsCanRepeat`). */
  datatype Bin = Bin(id: int, pos: LatLng, status: Status)

  /** The coordinates of `bins`, in order. */
  function Positions(bins: seq<Bin>): (r: seq<LatLng>)
    ensures |r| == |bins|
    ensures forall t | 0 <= t < |bins| :: r[t] == bins[t].pos
  {
    seq(|bins|, t requires 0 <= t < |bins| => bins[t].pos)
  }

  lemma PositionsAppend(a: seq<Bin>, b: seq<Bin>)
    ensures Positions(a + b) == Positions(a) + Positions(b)
  {
  }

  /** The chain a vehicle drives: depot, the bins' coordinates in visiting
      order, disposal site. */
  function Path(garage: LatLng, stops: seq<Bin>, disposal: LatLng): seq<LatLng> {
    [garage] + Positions(stops) + [disposal]
  }

  /** `dustbins.filter(d => d.status === 'red')`: the bins that need collection,
      in list order. */
  function RedBins(bins: seq<Bin>): (r: seq<Bin>)
    ensures |r| <= |bins|
    ensures forall b :: b in r <==> b in bins && b.status == Red
  {
    if |bins| == 0 then []
    else if bins[0].status == Red then [bins[0]] + RedBins(bins[1..])
    else RedBins(bins[1..])
  }

  /** The red-bin view distributes over concatenation: filtering keeps the
      relative order of the bins it keeps. */
  lemma {:induction false} RedBinsAppend(a: seq<Bin>, b: seq<Bin>)
    ensures RedBins(a + b) == RedBins(a) + RedBins(b)
  {
    if |a| > 0 {
      assert (a + b)[1..] == a[1..] + b;
      RedBinsAppend(a[1..], b);
    } else {
      assert a + b == b;
    }
  }
}
