/** The nearest-neighbour tour that the application treats as its main
    route: from the depot, repeatedly drive to the closest bin not yet
    visited, then to the disposal site. */
module NearestNeighbour {
  import opened Wrappers
  import opened Geo
  import opened Bins
  import opened Seqs

  /** The road distance from `cur` to the `t`-th unvisited bin. */
  function Gap(road: Road, cur: LatLng, u: seq<Bin>, t: nat): Dist
    requires t < |u|
  {
    road(cur, u[t].pos).dist
  }

  /** `k` is the index the scan settles on: no bin is strictly closer, and
      every bin before it is strictly farther (ties go to the lowest index). */
  predicate IsNearest(road: Road, cur: LatLng, u: seq<Bin>, k: nat) {
    && k < |u|
    && (forall t | 0 <= t < |u| :: Le(Gap(road, cur, u, k), Gap(road, cur, u, t)))
    && (forall t | 0 <= t < k :: Less(Gap(road, cur, u, k), Gap(road, cur, u, t)))
  }

  /** The inner `for` loop over `unvisited[1..]`, replacing the candidate only
      on a strictly smaller distance. */
  function ScanNearest(road: Road, cur: LatLng, u: seq<Bin>, i: nat, best: nat): (k: nat)
    requires best < i <= |u|
    requires forall t | 0 <= t < i :: Le(Gap(road, cur, u, best), Gap(road, cur, u, t))
    requires forall t | 0 <= t < best :: Less(Gap(road, cur, u, best), Gap(road, cur, u, t))
    ensures IsNearest(road, cur, u, k)
    decreases |u| - i
  {
    if i == |u| then best
    else if Less(Gap(road, cur, u, i), Gap(road, cur, u, best)) then
      assert forall t | 0 <= t < i :: Less(Gap(road, cur, u, i), Gap(road, cur, u, t)) by {
        forall t | 0 <= t < i
          ensures Less(Gap(road, cur, u, i), Gap(road, cur, u, t))
        {
          assert Le(Gap(road, cur, u, best), Gap(road, cur, u, t));
        }
      }
      ScanNearest(road, cur, u, i + 1, i)
    else ScanNearest(road, cur, u, i + 1, best)
  }

  function Nearest(road: Road, cur: LatLng, u: seq<Bin>): (k: nat)
    requires |u| > 0
    ensures IsNearest(road, cur, u, k)
  {
    ScanNearest(road, cur, u, 1, 0)
  }

  /** The scan's choice is determined: at most one index is nearest. */
  lemma NearestIsUnique(road: Road, cur: LatLng, u: seq<Bin>, k1: nat, k2: nat)
    requires IsNearest(road, cur, u, k1) && IsNearest(road, cur, u, k2)
    ensures k1 == k2
  {
    assert Le(Gap(road, cur, u, k1), Gap(road, cur, u, k2)) && Le(Gap(road, cur, u, k2), Gap(road, cur, u, k1));
  }

  /** Where the vehicle stands before stop `i` of `order`. */
  function Before(cur: LatLng, order: seq<Bin>, i: nat): LatLng
    requires i < |order|
  {
    if i == 0 then cur else order[i - 1].pos
  }

  /** Every stop is at least as close to the previous position as every
      stop still to come. */
  predicate EachStopNearest(road: Road, cur: LatLng, order: seq<Bin>) {
    forall i, j | 0 <= i <= j < |order| :: Le(StepGap(road, cur, order, i, i), StepGap(road, cur, order, i, j))
  }

  /** The distance from the position before stop `i` to stop `j`. */
  function StepGap(road: Road, cur: LatLng, order: seq<Bin>, i: nat, j: nat): Dist
    requires i < |order| && j < |order|
  {
    road(Before(cur, order, i), order[j].pos).dist
  }

  /** The visiting order the loop follows when no leg is unreachable. */
  function GreedyOrder(road: Road, cur: LatLng, u: seq<Bin>): (order: seq<Bin>)
    ensures multiset(order) == multiset(u)
    ensures EachStopNearest(road, cur, order)
    decreases |u|
  {
    if |u| == 0 then []
    else
      var k := Nearest(road, cur, u);
      var rest := GreedyOrder(road, u[k].pos, RemoveAt(u, k));
      var order := [u[k]] + rest;
      GreedyStepNearest(road, cur, u, k, rest);
      order
  }

  /** One greedy step keeps `EachStopNearest`: the first stop is nearest
      among all of `u`, and the rest is nearest step by step. */
  lemma GreedyStepNearest(road: Road, cur: LatLng, u: seq<Bin>, k: nat, rest: seq<Bin>)
    requires IsNearest(road, cur, u, k)
    requires multiset(rest) == multiset(RemoveAt(u, k))
    requires EachStopNearest(road, u[k].pos, rest)
    ensures multiset([u[k]] + rest) == multiset(u)
    ensures EachStopNearest(road, cur, [u[k]] + rest)
  {
    var order := [u[k]] + rest;
    forall i, j | 0 <= i <= j < |order|
      ensures Le(StepGap(road, cur, order, i, i), StepGap(road, cur, order, i, j))
    {
      if i == 0 {
        FirstStopNearest(road, cur, u, k, rest, j);
      } else {
        assert StepGap(road, cur, order, i, i) == StepGap(road, u[k].pos, rest, i - 1, i - 1);
        assert StepGap(road, cur, order, i, j) == StepGap(road, u[k].pos, rest, i - 1, j - 1);
      }
    }
  }

  lemma FirstStopNearest(road: Road, cur: LatLng, u: seq<Bin>, k: nat, rest: seq<Bin>, j: nat)
    requires IsNearest(road, cur, u, k)
    requires multiset(rest) == multiset(RemoveAt(u, k))
    requires j < |rest| + 1
    ensures Le(road(cur, u[k].pos).dist, road(cur, ([u[k]] + rest)[j].pos).dist)
  {
    var order := [u[k]] + rest;
    assert multiset(order) == multiset(u);
    assert order[j] in multiset(order);
    var t :| 0 <= t < |u| && u[t] == order[j];
    assert Le(Gap(road, cur, u, k), Gap(road, cur, u, t));
  }

  /** The main route: stops in visiting order, road geometry, total in km. */
  datatype Tour = Tour(stops: seq<Bin>, route: seq<LatLng>, totalDistance: Dist)

  /** The two errors the loop throws. */
  datatype RouteError = UnreachableBin | UnreachableDisposal

  /** One iteration of the `while (unvisited.length > 0)` loop per call, then
      the final leg; the loop variables are the parameters. */
  function VisitLoop(road: Road, garage: LatLng, disposal: LatLng, cur: LatLng,
                     visited: seq<Bin>, unvisited: seq<Bin>, geometry: seq<LatLng>, total: Dist)
    : (r: Result<Tour, RouteError>)
    requires cur == ([garage] + Positions(visited))[|visited|]
    requires total == Length(road, [garage] + Positions(visited)) && total.Fin?
    requires geometry == Trace(road, [garage] + Positions(visited))
    ensures var full := visited + GreedyOrder(road, cur, unvisited);
      && (r.Success? <==> Length(road, Path(garage, full, disposal)).Fin?)
      && (r.Success? ==> r.value == Tour(full, Trace(road, Path(garage, full, disposal)),
                                          Length(road, Path(garage, full, disposal))))
      && (r == Failure(UnreachableDisposal) <==>
            Length(road, [garage] + Positions(full)).Fin? && Length(road, Path(garage, full, disposal)).Inf?)
    decreases |unvisited|
  {
    if |unvisited| == 0 then
      var finalRoute := road(cur, disposal);
      FinalLeg(road, garage, disposal, cur, visited, total);
      if finalRoute.dist == Inf then Failure(UnreachableDisposal)
      else Success(Tour(visited, geometry + finalRoute.coords, Add(total, finalRoute.dist)))
    else
      var k := Nearest(road, cur, unvisited);
      var nearest := road(cur, unvisited[k].pos);
      GreedyStep(road, garage, disposal, cur, visited, unvisited, k);
      if nearest.dist == Inf then
        Failure(UnreachableBin)
      else
        VisitLoop(road, garage, disposal, unvisited[k].pos, visited + [unvisited[k]], RemoveAt(unvisited, k),
                  geometry + nearest.coords, Add(total, nearest.dist))
  }

  /** With nothing left to visit, the tour is the visited prefix plus the
      final leg to the disposal site. */
  lemma FinalLeg(road: Road, garage: LatLng, disposal: LatLng, cur: LatLng, visited: seq<Bin>, total: Dist)
    requires cur == ([garage] + Positions(visited))[|visited|]
    requires total == Length(road, [garage] + Positions(visited))
    ensures visited + GreedyOrder(road, cur, []) == visited
    ensures [garage] + Positions(visited + GreedyOrder(road, cur, [])) == [garage] + Positions(visited)
    ensures Length(road, Path(garage, visited, disposal)) == Add(total, road(cur, disposal).dist)
    ensures Trace(road, Path(garage, visited, disposal))
         == Trace(road, [garage] + Positions(visited)) + road(cur, disposal).coords
  {
    var here := [garage] + Positions(visited);
    assert Path(garage, visited, disposal) == here + [disposal];
    assert (here + [disposal])[..|here|] == here;
    assert visited + [] == visited;
  }

  /** One loop iteration: the nearest bin moves from `unvisited` to the end
      of `visited`, the full order is unchanged, and an unreachable nearest
      bin makes the whole tour (and every longer prefix) unreachable. */
  lemma GreedyStep(road: Road, garage: LatLng, disposal: LatLng, cur: LatLng,
                   visited: seq<Bin>, unvisited: seq<Bin>, k: nat)
    requires |unvisited| > 0 && k == Nearest(road, cur, unvisited)
    requires cur == ([garage] + Positions(visited))[|visited|]
    ensures var visited' := visited + [unvisited[k]];
      var full := visited + GreedyOrder(road, cur, unvisited);
      && full == visited' + GreedyOrder(road, unvisited[k].pos, RemoveAt(unvisited, k))
      && unvisited[k].pos == ([garage] + Positions(visited'))[|visited'|]
      && Length(road, [garage] + Positions(visited'))
         == Add(Length(road, [garage] + Positions(visited)), road(cur, unvisited[k].pos).dist)
      && Trace(road, [garage] + Positions(visited'))
         == Trace(road, [garage] + Positions(visited)) + road(cur, unvisited[k].pos).coords
      && (road(cur, unvisited[k].pos).dist == Inf ==>
            Length(road, Path(garage, full, disposal)).Inf? && Length(road, [garage] + Positions(full)).Inf?)
  {
    var visited' := visited + [unvisited[k]];
    var full := visited + GreedyOrder(road, cur, unvisited);
    GreedyOrderStep(road, cur, visited, unvisited, k);
    VisitStep(road, garage, cur, visited, unvisited[k]);
    if road(cur, unvisited[k].pos).dist == Inf {
      assert full[..|visited'|] == visited';
      UnreachablePrefix(road, garage, disposal, visited', full);
    }
  }

  /** Unfolding `GreedyOrder` once: its first stop is the nearest bin. */
  lemma GreedyOrderStep(road: Road, cur: LatLng, visited: seq<Bin>, unvisited: seq<Bin>, k: nat)
    requires |unvisited| > 0 && k == Nearest(road, cur, unvisited)
    ensures visited + GreedyOrder(road, cur, unvisited)
         == (visited + [unvisited[k]]) + GreedyOrder(road, unvisited[k].pos, RemoveAt(unvisited, k))
  {
  }

  /** Appending a stop to the visited prefix adds exactly one leg. */
  lemma VisitStep(road: Road, garage: LatLng, cur: LatLng, visited: seq<Bin>, b: Bin)
    requires cur == ([garage] + Positions(visited))[|visited|]
    ensures b.pos == ([garage] + Positions(visited + [b]))[|visited| + 1]
    ensures Length(road, [garage] + Positions(visited + [b]))
         == Add(Length(road, [garage] + Positions(visited)), road(cur, b.pos).dist)
    ensures Trace(road, [garage] + Positions(visited + [b]))
         == Trace(road, [garage] + Positions(visited)) + road(cur, b.pos).coords
  {
    var here := [garage] + Positions(visited);
    var here' := [garage] + Positions(visited + [b]);
    PositionsAppend(visited, [b]);
    assert here' == here + [b.pos];
    assert here'[..|here'| - 1] == here;
  }

  /** A prefix of visited bins that is already unreachable makes every
      extension of it unreachable. */
  lemma UnreachablePrefix(road: Road, garage: LatLng, disposal: LatLng, visited: seq<Bin>, full: seq<Bin>)
    requires |visited| <= |full| && full[..|visited|] == visited
    requires Length(road, [garage] + Positions(visited)).Inf?
    ensures Length(road, Path(garage, full, disposal)).Inf?
    ensures Length(road, [garage] + Positions(full)).Inf?
  {
    var here := [garage] + Positions(visited);
    assert visited + full[|visited|..] == full;
    PathSplit(garage, visited, full[|visited|..], disposal);
    LengthPrefix(road, here, Path(garage, full, disposal)[|here|..]);
    LengthPrefix(road, here, ([garage] + Positions(full))[|here|..]);
  }

  lemma PathSplit(garage: LatLng, a: seq<Bin>, b: seq<Bin>, disposal: LatLng)
    ensures Path(garage, a + b, disposal) == ([garage] + Positions(a)) + Path(garage, a + b, disposal)[|a| + 1..]
    ensures [garage] + Positions(a + b) == ([garage] + Positions(a)) + ([garage] + Positions(a + b))[|a| + 1..]
  {
    PositionsAppend(a, b);
  }

  /** The main route of `calculateOptimalRoute`: the greedy order, its road
      geometry and its length, or the error the loop throws. */
  function NearestNeighbourRoute(road: Road, garage: LatLng, disposal: LatLng, red: seq<Bin>)
    : (r: Result<Tour, RouteError>)
    ensures var order := GreedyOrder(road, garage, red);
      && (r.Success? <==> Length(road, Path(garage, order, disposal)).Fin?)
      && (r.Success? ==>
            && r.value.stops == order
            && multiset(r.value.stops) == multiset(red)
            && r.value.totalDistance == Length(road, Path(garage, order, disposal))
            && r.value.route == Trace(road, Path(garage, order, disposal)))
      && (r == Failure(UnreachableDisposal) <==>
            Length(road, [garage] + Positions(order)).Fin? && Length(road, Path(garage, order, disposal)).Inf?)
  {
    assert [garage] + Positions([]) == [garage];
    assert Length(road, [garage]) == Fin(0.0) && Trace(road, [garage]) == [];
    assert [] + GreedyOrder(road, garage, red) == GreedyOrder(road, garage, red);
    VisitLoop(road, garage, disposal, garage, [], red, [], Fin(0.0))
  }
}
