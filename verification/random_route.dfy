/** The alternative route: up to ten random visiting orders, the first one
    longer than the main route wins; otherwise the longest one seen (or no
    geometry at all) with its distance inflated by 20% for display.

    `Math.random()` is a parameter: `rand(attempt, i)` is the natural number
    whose residue modulo `i + 1` the Fisher–Yates step at index `i` of the
    given attempt picks. */
module RandomRoute {
  import opened Wrappers
  import opened Geo
  import opened Bins

  /** The attempt budget of the retry loop. */
  const MaxAttempts: nat := 10

  /** The display inflation applied when no attempt was long enough. */
  const Inflation: real := 1.2

  /** `[array[i], array[j]] = [array[j], array[i]]` */
  function Swap(a: seq<Bin>, i: nat, j: nat): (r: seq<Bin>)
    requires i < |a| && j < |a|
    ensures |r| == |a|
    ensures r[i] == a[j] && r[j] == a[i]
    ensures forall t | 0 <= t < |a| && t != i && t != j :: r[t] == a[t]
    ensures multiset(r) == multiset(a)
  {
    a[i := a[j]][j := a[i]]
  }

  /** The Fisher–Yates loop from index `i` down to 1. */
  function ShuffleDown(a: seq<Bin>, i: nat, draw: nat -> nat): (r: seq<Bin>)
    requires i < |a|
    ensures |r| == |a|
    ensures multiset(r) == multiset(a)
    decreases i
  {
    if i == 0 then a
    else ShuffleDown(Swap(a, i, draw(i) % (i + 1)), i - 1, draw)
  }

  /** `shuffleArray`: a permutation of its argument chosen by `draw`. */
  function Shuffle(a: seq<Bin>, draw: nat -> nat): (r: seq<Bin>)
    ensures |r| == |a|
    ensures multiset(r) == multiset(a)
  {
    if |a| == 0 then a else ShuffleDown(a, |a| - 1, draw)
  }

  /** When every draw picks the index itself, no element moves. */
  lemma {:induction false} ShuffleDownKeepsOnSelfDraws(a: seq<Bin>, i: nat, draw: nat -> nat)
    requires i < |a|
    requires forall t: nat | t <= i :: draw(t) % (t + 1) == t
    ensures ShuffleDown(a, i, draw) == a
    decreases i
  {
    if i > 0 {
      assert Swap(a, i, draw(i) % (i + 1)) == a;
      ShuffleDownKeepsOnSelfDraws(a, i - 1, draw);
    }
  }

  /** What the random route returns: road geometry and distance. */
  datatype AltRoute = AltRoute(route: seq<LatLng>, totalDistance: Dist)

  /** Everything one attempt depends on. */
  datatype Trial = Trial(road: Road, garage: LatLng, disposal: LatLng, red: seq<Bin>, rand: (nat, nat) -> nat)

  /** The visiting order of attempt `a`. */
  function AttemptOrder(t: Trial, a: nat): (order: seq<Bin>)
    ensures multiset(order) == multiset(t.red)
  {
    Shuffle(t.red, i => t.rand(a, i))
  }

  /** Attempt `a`: the legs through the shuffled bins, summed and
      concatenated in driving order, final leg included. */
  function Attempt(t: Trial, a: nat): AltRoute {
    var p := Path(t.garage, AttemptOrder(t, a), t.disposal);
    AltRoute(Trace(t.road, p), Length(t.road, p))
  }

  /** The ten attempts the loop may try, in order. The source computes
      them lazily and stops early; as they have no side effects here, the
      model lists them all and lets the loop read as far as it goes. */
  function Attempts(t: Trial): (runs: seq<AltRoute>)
    ensures |runs| == MaxAttempts
    ensures forall a | 0 <= a < MaxAttempts :: runs[a] == Attempt(t, a)
  {
    seq(MaxAttempts, a requires 0 <= a => Attempt(t, a))
  }

  /** `totalDistance > minDistance`; an unreachable leg makes it `Infinity`,
      which exceeds every finite bound. */
  predicate Exceeds(r: AltRoute, minDistance: Km) {
    Less(Fin(minDistance), r.totalDistance)
  }

  /** Attempt `a` is the first that exceeds the bound. */
  predicate FirstExceeding(runs: seq<AltRoute>, minDistance: Km, a: nat) {
    && a < |runs|
    && Exceeds(runs[a], minDistance)
    && forall b | 0 <= b < a :: !Exceeds(runs[b], minDistance)
  }

  /** Among the attempts before `upto`, attempt `b` has the largest positive
      distance and is the first to reach it. */
  predicate LongestSoFar(runs: seq<AltRoute>, b: nat, upto: nat)
    requires upto <= |runs|
  {
    && b < upto
    && runs[b].totalDistance.Fin?
    && runs[b].totalDistance.km > 0.0
    && (forall c | 0 <= c < upto :: Le(runs[c].totalDistance, runs[b].totalDistance))
    && (forall c | 0 <= c < b :: Less(runs[c].totalDistance, runs[b].totalDistance))
  }

  /** What the loop knows about the attempts before `a`: none exceeded the
      bound, and `best` is the longest positive one, or there is none and
      every attempt was 0 km long. */
  ghost predicate BestSoFar(runs: seq<AltRoute>, minDistance: Km, a: nat, best: Option<AltRoute>, bestDistance: Km) {
    && a <= |runs|
    && (forall b | 0 <= b < a :: !Exceeds(runs[b], minDistance))
    && (best.None? ==> bestDistance == 0.0 && forall b | 0 <= b < a :: runs[b].totalDistance == Fin(0.0))
    && (best.Some? ==>
          exists b: nat | LongestSoFar(runs, b, a) :: best.value == runs[b] && runs[b].totalDistance == Fin(bestDistance))
  }

  /** `bestRoute.totalDistance * 1.2` with the best route's geometry. */
  function Inflate(r: AltRoute): (s: AltRoute)
    requires r.totalDistance.Fin?
    ensures s.route == r.route && s.totalDistance.Fin?
    ensures r.totalDistance.km > 0.0 ==> Less(r.totalDistance, s.totalDistance)
  {
    AltRoute(r.route, Fin(r.totalDistance.km * Inflation))
  }

  /** The `while (attempts < maxAttempts)` loop from attempt `a` on, with the
      best route so far and its distance. */
  function Retry(runs: seq<AltRoute>, minDistance: Km, a: nat, best: Option<AltRoute>, bestDistance: Km)
    : (r: AltRoute)
    requires BestSoFar(runs, minDistance, a, best, bestDistance)
    ensures (exists b | 0 <= b < |runs| :: Exceeds(runs[b], minDistance)) ==>
      exists b: nat | FirstExceeding(runs, minDistance, b) :: r == runs[b]
    ensures (forall b | 0 <= b < |runs| :: !Exceeds(runs[b], minDistance)) &&
            (exists b | 0 <= b < |runs| :: runs[b].totalDistance != Fin(0.0)) ==>
      exists b: nat | LongestSoFar(runs, b, |runs|) :: r == Inflate(runs[b])
    ensures (forall b | 0 <= b < |runs| :: runs[b].totalDistance == Fin(0.0)) ==>
      r == AltRoute([], Fin(minDistance * Inflation))
    decreases |runs| - a
  {
    if a == |runs| then
      if best.Some? then Inflate(best.value)
      else AltRoute([], Fin(minDistance * Inflation))
    else if Exceeds(runs[a], minDistance) then
      runs[a]
    else if Less(Fin(bestDistance), runs[a].totalDistance) then
      KeepsLongest(runs, minDistance, a, best, bestDistance);
      Retry(runs, minDistance, a + 1, Some(runs[a]), runs[a].totalDistance.km)
    else
      KeepsBest(runs, minDistance, a, best, bestDistance);
      Retry(runs, minDistance, a + 1, best, bestDistance)
  }

  /** A non-exceeding attempt longer than the best so far becomes the best. */
  lemma KeepsLongest(runs: seq<AltRoute>, minDistance: Km, a: nat, best: Option<AltRoute>, bestDistance: Km)
    requires BestSoFar(runs, minDistance, a, best, bestDistance) && a < |runs|
    requires !Exceeds(runs[a], minDistance)
    requires Less(Fin(bestDistance), runs[a].totalDistance)
    ensures BestSoFar(runs, minDistance, a + 1, Some(runs[a]), runs[a].totalDistance.km)
  {
    var d := runs[a].totalDistance;
    assert d.Fin? && d.km > 0.0;
    if best.Some? {
      var b: nat :| LongestSoFar(runs, b, a) && best.value == runs[b] && runs[b].totalDistance == Fin(bestDistance);
      forall c | 0 <= c < a
        ensures Less(runs[c].totalDistance, d)
      {
        assert Le(runs[c].totalDistance, Fin(bestDistance));
      }
    } else {
      forall c | 0 <= c < a
        ensures Less(runs[c].totalDistance, d)
      {
        assert runs[c].totalDistance == Fin(0.0);
      }
    }
    assert LongestSoFar(runs, a, a + 1);
  }

  /** A non-exceeding attempt no longer than the best so far leaves the best
      in place. */
  lemma KeepsBest(runs: seq<AltRoute>, minDistance: Km, a: nat, best: Option<AltRoute>, bestDistance: Km)
    requires BestSoFar(runs, minDistance, a, best, bestDistance) && a < |runs|
    requires !Exceeds(runs[a], minDistance)
    requires !Less(Fin(bestDistance), runs[a].totalDistance)
    ensures BestSoFar(runs, minDistance, a + 1, best, bestDistance)
  {
    if best.Some? {
      var b: nat :| LongestSoFar(runs, b, a) && best.value == runs[b] && runs[b].totalDistance == Fin(bestDistance);
      assert Le(runs[a].totalDistance, runs[b].totalDistance);
      assert LongestSoFar(runs, b, a + 1);
    } else {
      assert runs[a].totalDistance == Fin(0.0);
    }
  }

  /** `calculateRandomRoute(redDustbins, start, end, minDistance)`. */
  function CalculateRandomRoute(t: Trial, minDistance: Km): (r: AltRoute)
    ensures var runs := Attempts(t);
      && ((exists b | 0 <= b < MaxAttempts :: Exceeds(runs[b], minDistance)) ==>
            exists b: nat | FirstExceeding(runs, minDistance, b) :: r == runs[b])
      && ((forall b | 0 <= b < MaxAttempts :: !Exceeds(runs[b], minDistance)) &&
          (exists b | 0 <= b < MaxAttempts :: runs[b].totalDistance != Fin(0.0)) ==>
            exists b: nat | LongestSoFar(runs, b, MaxAttempts) :: r == Inflate(runs[b]))
      && ((forall b | 0 <= b < MaxAttempts :: runs[b].totalDistance == Fin(0.0)) ==>
            r == AltRoute([], Fin(minDistance * Inflation)))
  {
    Retry(Attempts(t), minDistance, 0, None, 0.0)
  }

  /** An attempt that meets an unreachable leg first is returned as the
      alternative, with an infinite distance. */
  lemma UnreachableAttemptWins(t: Trial, minDistance: Km)
    requires Attempt(t, 0).totalDistance == Inf
    ensures CalculateRandomRoute(t, minDistance) == Attempt(t, 0)
  {
    var runs := Attempts(t);
    assert Exceeds(runs[0], minDistance);
    var b: nat :| FirstExceeding(runs, minDistance, b) && CalculateRandomRoute(t, minDistance) == runs[b];
  }

  /** The instance below: one bin, every leg 1 km long. */
  function UnitTrial(): Trial {
    Trial((p: LatLng, q: LatLng) => Leg([], Fin(1.0)), LatLng(0.0, 0.0), LatLng(1.0, 1.0),
          [Bin(1, LatLng(0.5, 0.5), Red)], (a: nat, i: nat) => 0)
  }

  lemma UnitAttempt(a: nat)
    ensures Attempt(UnitTrial(), a) == AltRoute([], Fin(2.0))
  {
    var t := UnitTrial();
    assert AttemptOrder(t, a) == t.red;
    assert Positions(t.red) == [LatLng(0.5, 0.5)];
    assert Path(t.garage, t.red, t.disposal) == [t.garage, LatLng(0.5, 0.5), t.disposal];
    ThreePoints(t.road, t.garage, LatLng(0.5, 0.5), t.disposal);
  }

  /** Length and trace of a two-leg chain. */
  lemma ThreePoints(road: Road, x: LatLng, y: LatLng, z: LatLng)
    ensures Length(road, [x, y, z]) == Add(Add(Fin(0.0), road(x, y).dist), road(y, z).dist)
    ensures Trace(road, [x, y, z]) == road(x, y).coords + road(y, z).coords
  {
    assert [x, y][..1] == [x];
    assert Length(road, [x, y]) == Add(Fin(0.0), road(x, y).dist);
    assert Trace(road, [x, y]) == [] + road(x, y).coords;
    assert [x, y, z][..2] == [x, y];
  }

  /** When every attempt drives the same positive, non-exceeding distance,
      the alternative is the first attempt's geometry with 20% added. */
  lemma UniformAttempts(t: Trial, minDistance: Km, r0: AltRoute)
    requires forall b | 0 <= b < MaxAttempts :: Attempt(t, b) == r0
    requires r0.totalDistance.Fin? && 0.0 < r0.totalDistance.km <= minDistance
    ensures CalculateRandomRoute(t, minDistance) == Inflate(r0)
  {
    var runs := Attempts(t);
    assert runs[0].totalDistance != Fin(0.0);
    var b: nat :| LongestSoFar(runs, b, MaxAttempts) && CalculateRandomRoute(t, minDistance) == Inflate(runs[b]);
  }

  /** The alternative is not always above its floor: one bin, every leg
      1 km, a floor of 10 km gives an alternative of 2.4 km, below the floor. */
  lemma RandomRouteCanUndershoot()
    ensures CalculateRandomRoute(UnitTrial(), 10.0) == AltRoute([], Fin(2.4))
    ensures Less(CalculateRandomRoute(UnitTrial(), 10.0).totalDistance, Fin(10.0))
  {
    forall b | 0 <= b < MaxAttempts
      ensures Attempt(UnitTrial(), b) == AltRoute([], Fin(2.0))
    {
      UnitAttempt(b);
    }
    UniformAttempts(UnitTrial(), 10.0, AltRoute([], Fin(2.0)));
  }
}
