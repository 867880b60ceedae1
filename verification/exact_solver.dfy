/** The exact solver `calculateFloydWarshallRoute`: relaxed distance matrix,
    brute force over every ordering of the bins between the fixed depot and
    disposal site, and the re-summed road legs of the winning order. The
    application never calls it; it is modelled on its own. */
module ExactSolver {
  import opened Wrappers
  import opened Geo
  import opened Bins
  import opened AllPairs
  import opened Permutations

  /** `Array.from({length: n - 2}, (_, i) => i + 1)`: the bin waypoints. */
  function InnerIndices(n: nat): (r: seq<nat>)
    requires n >= 2
    ensures |r| == n - 2
    ensures forall t | 0 <= t < n - 2 :: r[t] == t + 1
  {
    seq(n - 2, t requires 0 <= t < n - 2 => t + 1)
  }

  /** An ordering of the bin waypoints 1 .. n-2, each exactly once. */
  predicate IsVisitOrder(q: seq<nat>, n: nat)
    requires n >= 2
  {
    multiset(q) == multiset(InnerIndices(n))
  }

  lemma VisitOrderInRange(q: seq<nat>, n: nat)
    requires n >= 2 && IsVisitOrder(q, n)
    ensures |q| == n - 2
    ensures forall t | 0 <= t < |q| :: 1 <= q[t] <= n - 2
    ensures InRange(q, n) && InnerRange(q, n)
  {
    assert |q| == |multiset(q)| == |InnerIndices(n)|;
    forall t | 0 <= t < |q|
      ensures 1 <= q[t] <= n - 2
    {
      assert q[t] in multiset(q);
      assert q[t] in InnerIndices(n);
    }
  }

  /** `[0, ...perm, n - 1]`: depot, the bins in order, disposal site. */
  function Tour(perm: seq<nat>, n: nat): (r: seq<nat>)
    requires n >= 1
  {
    [0] + perm + [n - 1]
  }

  function TourCost(d: seq<seq<Dist>>, n: nat, perm: seq<nat>): Dist
    requires n >= 1 && IsSquare(d, n) && InRange(perm, n)
  {
    PathCost(d, n, Tour(perm, n))
  }

  /** `permutations(indices)`: the orderings the search tries, in order. */
  function Orderings(n: nat): seq<seq<nat>>
    requires n >= 2
  {
    AllPermutations(InnerIndices(n))
  }

  /** Every entry is a bin waypoint, 1 .. n-2. */
  predicate InnerRange(p: seq<nat>, n: nat) {
    forall t | 0 <= t < |p| :: 1 <= p[t] <= n - 2
  }

  /** Ordering `s` is the one the search keeps: its tour costs strictly less
      than the tour of every ordering listed before it. */
  predicate FirstCheapest(d: seq<seq<Dist>>, n: nat, s: int)
    requires n >= 2 && IsSquare(d, n)
  {
    && 0 <= s < |Orderings(n)| && InRange(Orderings(n)[s], n) && InnerRange(Orderings(n)[s], n)
    && forall s' | 0 <= s' < s ::
         InRange(Orderings(n)[s'], n) && Less(TourCost(d, n, Orderings(n)[s]), TourCost(d, n, Orderings(n)[s']))
  }

  /** What `findBestPermutation` returns over the matrix `d`. `best` is at
      most the tour cost of every visit order. The path is empty exactly when
      `best` is Infinity. Otherwise it is the tour of the first cheapest
      ordering, and `best` is that tour's cost. */
  ghost predicate BestTour(d: seq<seq<Dist>>, n: nat, path: seq<nat>, best: Dist)
    requires n >= 2 && IsSquare(d, n)
  {
    && (forall q | IsVisitOrder(q, n) && InRange(q, n) :: Le(best, TourCost(d, n, q)))
    && (path == [] <==> best == Inf)
    && (path != [] ==>
          exists s :: FirstCheapest(d, n, s) && path == Tour(Orderings(n)[s], n)
                      && best == TourCost(d, n, Orderings(n)[s]))
  }

  /** The cost loop of `findBestPermutation` for one ordering: the first leg
      from the depot, the legs between consecutive bins, the last leg to
      the disposal site. */
  method PermutationCost(d: seq<seq<Dist>>, n: nat, perm: seq<nat>) returns (total: Dist)
    requires n >= 1 && IsSquare(d, n) && InRange(perm, n) && |perm| > 0
    ensures total == TourCost(d, n, perm)
  {
    total := d[0][perm[0]];
    assert ([0] + perm[..1])[..1] == [0];
    for i := 0 to |perm| - 1
      invariant total == PathCost(d, n, [0] + perm[..i + 1])
    {
      assert ([0] + perm[..i + 2])[..i + 2] == [0] + perm[..i + 1];
      total := Add(total, d[perm[i]][perm[i + 1]]);
    }
    assert perm[..|perm|] == perm;
    assert Tour(perm, n)[..|perm| + 1] == [0] + perm;
    total := Add(total, d[perm[|perm| - 1]][n - 1]);
  }

  /** `findBestPermutation`: the first ordering (in the order `permutations`
      lists them) whose tour is strictly cheaper than every earlier one.
      `path` stays empty, and the distance `Infinity`, when every tour is
      unreachable. */
  method FindBestPermutation(d: seq<seq<Dist>>, n: nat) returns (path: seq<nat>, best: Dist)
    requires n >= 3 && IsSquare(d, n)
    ensures BestTour(d, n, path, best)
  {
    var perms := Orderings(n);
    PermutationsInRange(n);
    best, path := Inf, [];
    ghost var winner: int := -1;
    for s := 0 to |perms|
      invariant -1 <= winner < s
      invariant winner == -1 ==> path == [] && best == Inf
      invariant winner >= 0 ==>
        && FirstCheapest(d, n, winner) && best != Inf
        && path == Tour(perms[winner], n) && best == TourCost(d, n, perms[winner])
      invariant forall s' | 0 <= s' < s :: Le(best, TourCost(d, n, perms[s']))
    {
      var total := PermutationCost(d, n, perms[s]);
      if Less(total, best) {
        NewLeader(d, n, s, best);
        best, path := total, Tour(perms[s], n);
        winner := s;
      } else {
        assert Le(best, TourCost(d, n, perms[s]));
      }
    }
    CheapestOverAllOrders(d, n, best);
    if winner >= 0 {
      assert FirstCheapest(d, n, winner) && path == Tour(perms[winner], n);
    }
  }

  /** The loop step that replaces the kept ordering: a tour strictly cheaper
      than the best so far is strictly cheaper than every earlier one, so it
      becomes the first cheapest, and the new best is below all tours read. */
  lemma NewLeader(d: seq<seq<Dist>>, n: nat, s: nat, best: Dist)
    requires n >= 2 && IsSquare(d, n) && s < |Orderings(n)|
    requires forall s' | 0 <= s' < |Orderings(n)| :: InRange(Orderings(n)[s'], n) && InnerRange(Orderings(n)[s'], n)
    requires forall s' | 0 <= s' < s :: Le(best, TourCost(d, n, Orderings(n)[s']))
    requires Less(TourCost(d, n, Orderings(n)[s]), best)
    ensures FirstCheapest(d, n, s)
    ensures forall s' | 0 <= s' <= s :: Le(TourCost(d, n, Orderings(n)[s]), TourCost(d, n, Orderings(n)[s']))
  {
    var total := TourCost(d, n, Orderings(n)[s]);
    forall s' | 0 <= s' < s
      ensures Less(total, TourCost(d, n, Orderings(n)[s']))
    {
      LessLeTrans(total, best, TourCost(d, n, Orderings(n)[s']));
    }
  }

  lemma PermutationsInRange(n: nat)
    requires n >= 2
    ensures forall s | 0 <= s < |Orderings(n)| ::
      InRange(Orderings(n)[s], n) && InnerRange(Orderings(n)[s], n) && |Orderings(n)[s]| == n - 2
  {
    var perms := Orderings(n);
    forall s | 0 <= s < |perms|
      ensures InRange(perms[s], n) && InnerRange(perms[s], n) && |perms[s]| == n - 2
    {
      assert perms[s] in perms;
      VisitOrderInRange(perms[s], n);
    }
  }

  /** A bound on every listed ordering bounds every ordering at all, since
      `permutations` lists them all. */
  lemma CheapestOverAllOrders(d: seq<seq<Dist>>, n: nat, best: Dist)
    requires n >= 2 && IsSquare(d, n)
    requires forall s | 0 <= s < |Orderings(n)| :: InRange(Orderings(n)[s], n)
    requires forall s | 0 <= s < |Orderings(n)| :: Le(best, TourCost(d, n, Orderings(n)[s]))
    ensures forall q | IsVisitOrder(q, n) && InRange(q, n) :: Le(best, TourCost(d, n, q))
  {
    var perms := Orderings(n);
    forall q | IsVisitOrder(q, n) && InRange(q, n)
      ensures Le(best, TourCost(d, n, q))
    {
      AllPermutationsComplete(InnerIndices(n), q);
      var s :| 0 <= s < |perms| && perms[s] == q;
    }
  }

  /** `p.map(idx => pts[idx])` */
  function Select<T>(pts: seq<T>, p: seq<nat>): (r: seq<T>)
    requires InRange(p, |pts|)
    ensures |r| == |p|
    ensures forall t | 0 <= t < |p| :: r[t] == pts[p[t]]
  {
    seq(|p|, t requires 0 <= t < |p| => pts[p[t]])
  }

  lemma SelectRemove<T>(pts: seq<T>, q: seq<nat>, i: nat)
    requires InRange(q, |pts|) && i < |q|
    ensures InRange(q[..i] + q[i + 1..], |pts|)
    ensures multiset(Select(pts, q)) == multiset(Select(pts, q[..i] + q[i + 1..])) + multiset{pts[q[i]]}
  {
    var q' := q[..i] + q[i + 1..];
    var s := Select(pts, q);
    assert forall t | 0 <= t < |q'| :: q'[t] == if t < i then q[t] else q[t + 1];
    assert Select(pts, q') == s[..i] + s[i + 1..];
    SpliceMultiset(s, i);
  }

  /** Taking out entry `i` takes one copy of it out of the multiset. */
  lemma SpliceMultiset<T>(s: seq<T>, i: nat)
    requires i < |s|
    ensures multiset(s) == multiset(s[..i] + s[i + 1..]) + multiset{s[i]}
  {
    assert s == s[..i] + [s[i]] + s[i + 1..];
  }

  /** Equal multisets stay equal when the same element is taken out of both. */
  lemma CancelHead<T>(p: seq<T>, q: seq<T>, i: nat)
    requires multiset(p) == multiset(q) && |p| > 0 && i < |q| && q[i] == p[0]
    ensures multiset(p[1..]) == multiset(q[..i] + q[i + 1..])
  {
    var rest, x := q[..i] + q[i + 1..], multiset{p[0]};
    SpliceMultiset(q, i);
    assert p == [p[0]] + p[1..];
    assert multiset(p[1..]) + x == multiset(rest) + x;
    forall y
      ensures multiset(p[1..])[y] == multiset(rest)[y]
    {
      assert (multiset(p[1..]) + x)[y] == (multiset(rest) + x)[y];
    }
  }

  /** Reordering the indices reorders the selected elements the same way. */
  lemma {:induction false} SelectPermutation<T>(pts: seq<T>, p: seq<nat>, q: seq<nat>)
    requires InRange(p, |pts|) && InRange(q, |pts|) && multiset(p) == multiset(q)
    ensures multiset(Select(pts, p)) == multiset(Select(pts, q))
    decreases |p|
  {
    assert |p| == |multiset(p)| == |q|;
    if |p| > 0 {
      assert p[0] in multiset(q);
      var i :| 0 <= i < |q| && q[i] == p[0];
      var p', q' := p[1..], q[..i] + q[i + 1..];
      CancelHead(p, q, i);
      SelectRemove(pts, q, i);
      SelectRemove(pts, p, 0);
      assert p[..0] + p[1..] == p';
      SelectPermutation(pts, p', q');
    }
  }

  /** The road service is symmetric and puts every point at distance 0 from
      itself, on these waypoints: then the fill loses nothing. */
  predicate RoadConsistent(pts: seq<LatLng>, road: Road) {
    forall a, b | 0 <= a < |pts| && 0 <= b < |pts| :: road(pts[a], pts[b]).dist == Direct(pts, road, a, b)
  }

  lemma {:induction false} LengthIsDirectCost(pts: seq<LatLng>, road: Road, p: seq<nat>)
    requires InRange(p, |pts|) && RoadConsistent(pts, road)
    ensures Length(road, Select(pts, p)) == PathCost(DirectMatrix(pts, road), |pts|, p)
    decreases |p|
  {
    if |p| >= 2 {
      var p' := p[..|p| - 1];
      LengthIsDirectCost(pts, road, p');
      assert Select(pts, p)[..|p| - 1] == Select(pts, p');
    }
  }

  datatype ExactTour = ExactTour(
    route: seq<LatLng>,        // the concatenated road geometry
    points: seq<Bin>,          // the red bins in visiting order
    totalDistance: Dist,       // the re-summed road legs, as reported
    relaxedDistance: Dist)     // the search's optimum, which the source discards

  /** The source reads `perm[0]` of an empty ordering and fails with a type
      error when there is no bin to visit. */
  datatype ExactError = NoBinsToVisit

  /** `idx.map(i => allPoints[i])` for bin waypoints: in
      `allPoints = [start, ...red, end]`, waypoint `i` is bin `i - 1`. */
  function StopsAt(red: seq<Bin>, idx: seq<nat>): (r: seq<Bin>)
    requires InnerRange(idx, |red| + 2)
    ensures |r| == |idx|
    ensures forall t | 0 <= t < |idx| :: r[t] == red[idx[t] - 1]
  {
    seq(|idx|, t requires 0 <= t < |idx| => red[idx[t] - 1])
  }

  /** `calculateFloydWarshallRoute(redDustbins, start, end)`. The kept
      ordering is the first cheapest one over the relaxed matrix of the
      direct road distances. */
  method CalculateFloydWarshallRoute(red: seq<Bin>, start: LatLng, end: LatLng, road: Road)
    returns (r: Result<ExactTour, ExactError>)
    ensures r.Failure? <==> |red| == 0
    ensures r.Success? ==>
      var t := r.value;
      var pts := [start] + Positions(red) + [end];
      var n := |pts|;
      var relaxed := RelaxUpTo(DirectMatrix(pts, road), n, n);
      && (t.points == [] <==> t.relaxedDistance == Inf)
      && (t.points == [] ==> t.route == [] && t.totalDistance == Fin(0.0))
      && (forall q | IsVisitOrder(q, n) && InRange(q, n) :: Le(t.relaxedDistance, TourCost(relaxed, n, q)))
      && (t.points != [] ==>
            && (exists s :: FirstCheapest(relaxed, n, s)
                             && t.relaxedDistance == TourCost(relaxed, n, Orderings(n)[s])
                             && t.points == StopsAt(red, Orderings(n)[s]))
            && multiset(t.points) == multiset(red)
            && t.totalDistance == Length(road, Path(start, t.points, end))
            && t.route == Trace(road, Path(start, t.points, end)))
      && (forall q | IsVisitOrder(q, n) && InRange(q, n) ::
            Le(t.relaxedDistance, TourCost(DirectMatrix(pts, road), n, q)))
      && (RoadConsistent(pts, road) && t.points != [] ==> Le(t.relaxedDistance, t.totalDistance))
  {
    if |red| == 0 {
      return Failure(NoBinsToVisit);
    }
    var pts := [start] + Positions(red) + [end];
    var n := |pts|;
    var path, distance := SearchRelaxed(pts, road);
    var route: seq<LatLng> := [];
    var total := Fin(0.0);
    var points: seq<Bin> := [];
    if path != [] {
      ghost var relaxed := RelaxUpTo(DirectMatrix(pts, road), n, n);
      ghost var s :| FirstCheapest(relaxed, n, s) && path == Tour(Orderings(n)[s], n)
                     && distance == TourCost(relaxed, n, Orderings(n)[s]);
      ghost var perm := Orderings(n)[s];
      assert perm in Orderings(n);
      assert IsVisitOrder(perm, n);
      WinnerPath(pts, perm, Select(pts, perm));
      points := StopsAt(red, path[1..|path| - 1]);
      StopsAtPermutes(red, start, end, perm);
      route, total := JoinSegments(pts, path, road);
      ConsistentRoadBound(pts, road, perm, distance);
    }
    return Success(ExactTour(route, points, total, distance));
  }

  /** Fill, relax and search: the kept path and distance are what
      `findBestPermutation` returns over the relaxed matrix, and the relaxed
      optimum is also at most the direct cost of every ordering. */
  method SearchRelaxed(pts: seq<LatLng>, road: Road) returns (path: seq<nat>, distance: Dist)
    requires |pts| >= 3
    ensures BestTour(RelaxUpTo(DirectMatrix(pts, road), |pts|, |pts|), |pts|, path, distance)
    ensures forall q | IsVisitOrder(q, |pts|) && InRange(q, |pts|) ::
      Le(distance, TourCost(DirectMatrix(pts, road), |pts|, q))
  {
    var n := |pts|;
    var dist, next := FillMatrices(pts, road);
    FillIsDirect(dist, pts, road);
    var d, nx := FloydWarshall(dist, next, n);
    path, distance := FindBestPermutation(d, n);
    forall q | IsVisitOrder(q, n) && InRange(q, n)
      ensures Le(distance, TourCost(dist, n, q))
    {
      PathCostMono(d, dist, n, Tour(q, n));
      LessLeTrans(distance, TourCost(d, n, q), TourCost(dist, n, q));
    }
  }

  /** With a consistent road service the relaxed optimum is at most the
      direct road length of the winning tour. */
  lemma ConsistentRoadBound(pts: seq<LatLng>, road: Road, perm: seq<nat>, distance: Dist)
    requires |pts| >= 2 && InRange(perm, |pts|)
    requires Le(distance, TourCost(DirectMatrix(pts, road), |pts|, perm))
    ensures InRange(Tour(perm, |pts|), |pts|)
    ensures RoadConsistent(pts, road) ==>
      Le(distance, Length(road, Select(pts, Tour(perm, |pts|))))
  {
    assert InRange(Tour(perm, |pts|), |pts|);
    if RoadConsistent(pts, road) {
      LengthIsDirectCost(pts, road, Tour(perm, |pts|));
    }
  }

  /** The loop that re-queries the road service for each consecutive pair of
      the winning path, concatenating geometry and summing distances. */
  method JoinSegments(pts: seq<LatLng>, path: seq<nat>, road: Road)
    returns (route: seq<LatLng>, total: Dist)
    requires InRange(path, |pts|) && |path| > 0
    ensures total == Length(road, Select(pts, path))
    ensures route == Trace(road, Select(pts, path))
  {
    route, total := [], Fin(0.0);
    for i := 0 to |path| - 1
      invariant total == Length(road, Select(pts, path[..i + 1]))
      invariant route == Trace(road, Select(pts, path[..i + 1]))
    {
      var sel := Select(pts, path[..i + 2]);
      assert sel[..i + 1] == Select(pts, path[..i + 1]);
      var segment := road(pts[path[i]], pts[path[i + 1]]);
      route := route + segment.coords;
      total := Add(total, segment.dist);
    }
    assert path[..|path|] == path;
  }

  /** The bins an ordering of the waypoints picks are the red bins,
      rearranged, and their coordinates are the waypoints it picks. */
  lemma StopsAtPermutes(red: seq<Bin>, start: LatLng, end: LatLng, perm: seq<nat>)
    requires IsVisitOrder(perm, |red| + 2)
    ensures InnerRange(perm, |red| + 2) && InRange(perm, |red| + 2)
    ensures |StopsAt(red, perm)| == |red|
    ensures multiset(StopsAt(red, perm)) == multiset(red)
    ensures Positions(StopsAt(red, perm)) == Select([start] + Positions(red) + [end], perm)
  {
    var n := |red| + 2;
    VisitOrderInRange(perm, n);
    var pad := [Bin(0, start, Green)] + red + [Bin(0, end, Green)];
    assert pad[1..|red| + 1] == red;
    StopsAtInner(red);
    PaddedSelect(red, pad, perm);
    PaddedSelect(red, pad, InnerIndices(n));
    SelectPermutation(pad, perm, InnerIndices(n));
    StopsAtPositions(red, start, end, perm);
  }

  /** Picking every bin waypoint in order gives the bins in order. */
  lemma StopsAtInner(red: seq<Bin>)
    ensures InnerRange(InnerIndices(|red| + 2), |red| + 2)
    ensures StopsAt(red, InnerIndices(|red| + 2)) == red
  {
  }

  /** Any padding at both ends leaves the bin waypoints where they are. */
  lemma PaddedSelect(red: seq<Bin>, pad: seq<Bin>, idx: seq<nat>)
    requires |pad| == |red| + 2 && pad[1..|red| + 1] == red
    requires InnerRange(idx, |red| + 2)
    ensures InRange(idx, |pad|)
    ensures StopsAt(red, idx) == Select(pad, idx)
  {
    forall t | 0 <= t < |idx|
      ensures StopsAt(red, idx)[t] == Select(pad, idx)[t]
    {
      assert pad[idx[t]] == pad[1..|red| + 1][idx[t] - 1];
    }
  }

  lemma StopsAtPositions(red: seq<Bin>, start: LatLng, end: LatLng, idx: seq<nat>)
    requires InnerRange(idx, |red| + 2)
    ensures InRange(idx, |red| + 2)
    ensures Positions(StopsAt(red, idx)) == Select([start] + Positions(red) + [end], idx)
  {
    var pts := [start] + Positions(red) + [end];
    forall t | 0 <= t < |idx|
      ensures Positions(StopsAt(red, idx))[t] == Select(pts, idx)[t]
    {
      assert pts[idx[t]] == Positions(red)[idx[t] - 1];
    }
  }

  /** The winning path visits the depot, the inner points, the disposal site. */
  lemma WinnerPath(pts: seq<LatLng>, perm: seq<nat>, points: seq<LatLng>)
    requires |pts| >= 2 && InRange(perm, |pts|)
    requires points == Select(pts, perm)
    ensures InRange(Tour(perm, |pts|), |pts|)
    ensures Tour(perm, |pts|)[1..|perm| + 1] == perm
    ensures Select(pts, Tour(perm, |pts|)) == [pts[0]] + points + [pts[|pts| - 1]]
  {
    var t := Tour(perm, |pts|);
    assert t[1..|perm| + 1] == perm;
    var lhs, rhs := Select(pts, t), [pts[0]] + points + [pts[|pts| - 1]];
    forall k | 0 <= k < |lhs|
      ensures lhs[k] == rhs[k]
    {
      if 0 < k <= |perm| {
        assert t[k] == perm[k - 1];
      }
    }
  }
}
