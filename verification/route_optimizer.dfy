/** The route optimizer panel's "calculate" action: check that both
    endpoints are set, collect the red bins, compute the nearest-neighbour
    main route and the random alternative, store both, and hand the selected
    one to the page. */
module RouteOptimizer {
  import opened Wrappers
  import opened Geo
  import opened Bins
  import opened NearestNeighbour
  import opened RandomRoute
  import opened Seqs

  /** Which of the two routes the panel displays. */
  datatype Selection = Nearest | Alternative

  /** The panel's state that the calculation writes. */
  datatype OptimizerState = OptimizerState(
    optimalRoute: seq<Bin>,
    storedMainRoute: Option<Tour>,
    storedAltRoute: Option<AltRoute>,
    totalDistance: Dist,
    alternativeTotalDistance: Dist,
    selectedRoute: Selection)

  /** The panel as it first renders: nothing stored, both distances 0. */
  function InitialState(): (s: OptimizerState)
    ensures s.optimalRoute == [] && s.storedMainRoute.None? && s.storedAltRoute.None?
    ensures s.totalDistance == Fin(0.0) && s.alternativeTotalDistance == Fin(0.0)
    ensures s.selectedRoute == Nearest
  {
    OptimizerState([], None, None, Fin(0.0), Fin(0.0), Nearest)
  }

  /** The three alerts the action can raise. */
  datatype Alert = MissingEndpoints | NoRedBins | CalculationFailed

  /** The arguments of `onRouteCalculated(route, alternativeRoute, garage, disposal)`. */
  datatype RouteCallback = RouteCallback(
    route: seq<LatLng>, alternativeRoute: seq<LatLng>, garage: Option<LatLng>, disposal: Option<LatLng>)

  /** Everything one press of the button produces. */
  datatype Outcome = Outcome(state: OptimizerState, alert: Option<Alert>, callback: Option<RouteCallback>)

  /** `calculateOptimalRoute`. The road service and `Math.random` are the
      parameters `road` and `rand`; a thrown error is `CalculationFailed`
      with the state as it was before the press. */
  function CalculateOptimalRoute(st: OptimizerState, dustbins: seq<Bin>, garage: Option<LatLng>,
                                 disposal: Option<LatLng>, road: Road, rand: (nat, nat) -> nat)
    : (o: Outcome)
    ensures o.alert == Some(MissingEndpoints) <==> garage.None? || disposal.None?
    ensures o.alert == Some(MissingEndpoints) ==> o.state == st && o.callback.None?
    ensures o.alert == Some(NoRedBins) <==>
      garage.Some? && disposal.Some? && forall b | b in dustbins :: b.status == Green
    ensures o.alert == Some(NoRedBins) ==>
      && o.state == st.(optimalRoute := [], storedMainRoute := None, storedAltRoute := None)
      && o.callback == Some(RouteCallback([], [], garage, disposal))
    ensures o.alert == Some(CalculationFailed) <==>
      && garage.Some? && disposal.Some? && (exists b | b in dustbins :: b.status == Red)
      && Length(road, Path(garage.value, GreedyOrder(road, garage.value, RedBins(dustbins)), disposal.value)).Inf?
    ensures o.alert == Some(CalculationFailed) ==> o.state == st && o.callback.None?
    ensures o.alert.None? ==>
      && garage.Some? && disposal.Some? && o.state.totalDistance.Fin?
      && var red := RedBins(dustbins);
         var path := Path(garage.value, GreedyOrder(road, garage.value, red), disposal.value);
         var alt := CalculateRandomRoute(Trial(road, garage.value, disposal.value, red, rand), o.state.totalDistance.km);
      && o.state.optimalRoute == red
      && o.state.totalDistance == Length(road, path)
      && o.state.storedMainRoute == Some(Tour(GreedyOrder(road, garage.value, red), Trace(road, path), Length(road, path)))
      && o.state.storedAltRoute == Some(alt)
      && o.state.alternativeTotalDistance == alt.totalDistance
      && o.state.selectedRoute == st.selectedRoute
      && o.callback == Some(RouteCallback(
           if st.selectedRoute == Nearest then Trace(road, path) else [],
           if st.selectedRoute == Alternative then alt.route else [],
           garage, disposal))
  {
    if garage.None? || disposal.None? then
      Outcome(st, Some(MissingEndpoints), None)
    else
      var red := RedBins(dustbins);
      if |red| == 0 then
        NoRedMeansAllGreen(dustbins);
        Outcome(st.(optimalRoute := [], storedMainRoute := None, storedAltRoute := None),
                Some(NoRedBins), Some(RouteCallback([], [], garage, disposal)))
      else
        assert red[0] in red;
        match NearestNeighbourRoute(road, garage.value, disposal.value, red)
        case Failure(_) =>
          Outcome(st, Some(CalculationFailed), None)
        case Success(main) =>
          var alt := CalculateRandomRoute(Trial(road, garage.value, disposal.value, red, rand), main.totalDistance.km);
          var st' := st.(storedMainRoute := Some(main), storedAltRoute := Some(alt),
                         totalDistance := main.totalDistance, alternativeTotalDistance := alt.totalDistance,
                         optimalRoute := red);
          var display := if st.selectedRoute == Nearest then main.route else alt.route;
          Outcome(st', None, Some(RouteCallback(
            if st.selectedRoute == Nearest then display else [],
            if st.selectedRoute == Alternative then display else [],
            garage, disposal)))
  }

  /** No red bin in the list exactly when the filter comes back empty. */
  lemma NoRedMeansAllGreen(dustbins: seq<Bin>)
    ensures |RedBins(dustbins)| == 0 <==> forall b | b in dustbins :: b.status == Green
  {
    if |RedBins(dustbins)| != 0 {
      assert RedBins(dustbins)[0] in RedBins(dustbins);
    }
  }

  /** The guards are decided before any road is queried: with an endpoint
      missing or no red bin, the road service and the random source make no
      difference. */
  lemma GuardsIgnoreRoad(st: OptimizerState, dustbins: seq<Bin>, garage: Option<LatLng>, disposal: Option<LatLng>,
                         road1: Road, rand1: (nat, nat) -> nat, road2: Road, rand2: (nat, nat) -> nat)
    requires garage.None? || disposal.None? || forall b | b in dustbins :: b.status == Green
    ensures CalculateOptimalRoute(st, dustbins, garage, disposal, road1, rand1)
         == CalculateOptimalRoute(st, dustbins, garage, disposal, road2, rand2)
  {
    NoRedMeansAllGreen(dustbins);
  }

  /** After a successful calculation, the displayed route is the stored
      route of the selected kind, and the other slot is empty. */
  lemma CallbackShowsSelectedRoute(st: OptimizerState, dustbins: seq<Bin>, garage: Option<LatLng>,
                                   disposal: Option<LatLng>, road: Road, rand: (nat, nat) -> nat)
    requires CalculateOptimalRoute(st, dustbins, garage, disposal, road, rand).alert.None?
    ensures var o := CalculateOptimalRoute(st, dustbins, garage, disposal, road, rand);
      && o.callback.Some? && o.state.storedMainRoute.Some? && o.state.storedAltRoute.Some?
      && (o.state.selectedRoute == Nearest ==>
            o.callback.value.route == o.state.storedMainRoute.value.route && o.callback.value.alternativeRoute == [])
      && (o.state.selectedRoute == Alternative ==>
            o.callback.value.alternativeRoute == o.state.storedAltRoute.value.route && o.callback.value.route == [])
  {
  }

  /** The stored main route visits every red bin exactly once. */
  lemma MainRouteVisitsEveryRedBin(st: OptimizerState, dustbins: seq<Bin>, garage: Option<LatLng>,
                                   disposal: Option<LatLng>, road: Road, rand: (nat, nat) -> nat)
    requires CalculateOptimalRoute(st, dustbins, garage, disposal, road, rand).alert.None?
    ensures var o := CalculateOptimalRoute(st, dustbins, garage, disposal, road, rand);
      && o.state.storedMainRoute.Some?
      && multiset(o.state.storedMainRoute.value.stops) == multiset(RedBins(dustbins))
      && forall b :: b in o.state.storedMainRoute.value.stops <==> b in dustbins && b.status == Red
  {
    var o := CalculateOptimalRoute(st, dustbins, garage, disposal, road, rand);
    var red := RedBins(dustbins);
    var stops := GreedyOrder(road, garage.value, red);
    assert o.state.storedMainRoute.value.stops == stops;
    SameMultisetSameMembers(stops, red);
  }

  lemma SameMultisetSameMembers(s: seq<Bin>, t: seq<Bin>)
    requires multiset(s) == multiset(t)
    ensures forall b :: b in s <==> b in t
  {
    forall b
      ensures b in s <==> b in t
    {
      assert b in s <==> b in multiset(s);
      assert b in t <==> b in multiset(t);
    }
  }

  /** The instance below: the depot, two red bins and the disposal site on
      a line, joined by one-way distances. From the depot the first bin is
      closest, but from there the second bin and the site are far; the
      reverse order is short. */
  const SkewGarage := LatLng(0.0, 0.0)
  const SkewFirst := LatLng(1.0, 0.0)
  const SkewSecond := LatLng(2.0, 0.0)
  const SkewDisposal := LatLng(3.0, 0.0)

  /** The one-way distances, keyed by the points' latitudes. */
  function SkewKm(p: LatLng, q: LatLng): Km {
    match (p.lat, q.lat)
    case (0.0, 1.0) => 1.0
    case (0.0, 2.0) => 2.0
    case (1.0, 2.0) => 100.0
    case (2.0, 1.0) => 1.0
    case (1.0, 3.0) => 1.0
    case (2.0, 3.0) => 100.0
    case _ => 50.0
  }

  function SkewRoad(): Road {
    (p: LatLng, q: LatLng) => Leg([], Fin(SkewKm(p, q)))
  }

  function SkewBins(): seq<Bin> {
    [Bin(1, SkewFirst, Red), Bin(2, SkewSecond, Red)]
  }

  /** The six legs the two searches drive on the instance. */
  predicate SkewLegs(road: Road) {
    && road(SkewGarage, SkewFirst).dist == Fin(1.0)
    && road(SkewGarage, SkewSecond).dist == Fin(2.0)
    && road(SkewFirst, SkewSecond).dist == Fin(100.0)
    && road(SkewSecond, SkewFirst).dist == Fin(1.0)
    && road(SkewFirst, SkewDisposal).dist == Fin(1.0)
    && road(SkewSecond, SkewDisposal).dist == Fin(100.0)
  }

  lemma SkewRoadLegs()
    ensures SkewLegs(SkewRoad())
  {
    assert SkewKm(SkewGarage, SkewFirst) == 1.0;
    assert SkewKm(SkewGarage, SkewSecond) == 2.0;
    assert SkewKm(SkewFirst, SkewSecond) == 100.0;
    assert SkewKm(SkewSecond, SkewFirst) == 1.0;
    assert SkewKm(SkewFirst, SkewDisposal) == 1.0;
    assert SkewKm(SkewSecond, SkewDisposal) == 100.0;
  }

  lemma SkewRed()
    ensures RedBins(SkewBins()) == SkewBins()
  {
    var red := SkewBins();
    assert red[1..] == [red[1]];
    assert red[1..][1..] == [];
  }

  /** Length and trace of a three-leg chain. */
  lemma FourPoints(road: Road, w: LatLng, x: LatLng, y: LatLng, z: LatLng)
    ensures Length(road, [w, x, y, z]) == Add(Add(Add(Fin(0.0), road(w, x).dist), road(x, y).dist), road(y, z).dist)
    ensures Trace(road, [w, x, y, z]) == road(w, x).coords + road(x, y).coords + road(y, z).coords
  {
    ThreePoints(road, w, x, y);
    assert [w, x, y, z][..3] == [w, x, y];
  }

  /** From the depot the first bin is nearest (1 km against 2 km). */
  lemma SkewFirstNearest(road: Road)
    requires SkewLegs(road)
    ensures NearestNeighbour.Nearest(road, SkewGarage, SkewBins()) == 0
  {
    assert IsNearest(road, SkewGarage, SkewBins(), 0);
    NearestIsUnique(road, SkewGarage, SkewBins(), 0, NearestNeighbour.Nearest(road, SkewGarage, SkewBins()));
  }

  /** The greedy order: first bin, then second bin. */
  lemma SkewGreedyOrder(road: Road)
    requires SkewLegs(road)
    ensures GreedyOrder(road, SkewGarage, SkewBins()) == SkewBins()
  {
    var red := SkewBins();
    var second := red[1];
    SkewFirstNearest(road);
    assert RemoveAt(red, 0) == [second];
    assert GreedyOrder(road, SkewFirst, [second]) == [second] by {
      assert RemoveAt([second], 0) == [];
    }
  }

  /** The greedy tour drives 1 + 100 + 100 km. */
  lemma SkewGreedyLength(road: Road)
    requires SkewLegs(road)
    ensures Length(road, Path(SkewGarage, SkewBins(), SkewDisposal)) == Fin(201.0)
  {
    assert Path(SkewGarage, SkewBins(), SkewDisposal) == [SkewGarage, SkewFirst, SkewSecond, SkewDisposal];
    FourPoints(road, SkewGarage, SkewFirst, SkewSecond, SkewDisposal);
  }

  /** With each draw picking index 0, every attempt swaps the two bins. */
  lemma SkewShuffle(t: Trial, b: nat)
    requires t.red == SkewBins()
    requires forall a: nat, i: nat :: t.rand(a, i) == 0
    ensures AttemptOrder(t, b) == [SkewBins()[1], SkewBins()[0]]
  {
    assert t.rand(b, 1) % 2 == 0;
  }

  /** The swapped order drives 2 + 1 + 1 km. */
  lemma SkewSwappedLength(road: Road)
    requires SkewLegs(road)
    ensures Length(road, Path(SkewGarage, [SkewBins()[1], SkewBins()[0]], SkewDisposal)) == Fin(4.0)
  {
    assert Path(SkewGarage, [SkewBins()[1], SkewBins()[0]], SkewDisposal)
        == [SkewGarage, SkewSecond, SkewFirst, SkewDisposal];
    FourPoints(road, SkewGarage, SkewSecond, SkewFirst, SkewDisposal);
  }

  /** Against the 201 km floor no attempt is long enough, so the longest
      (each is 4 km) is inflated to 4.8 km. */
  lemma SkewAlternative(road: Road, rand: (nat, nat) -> nat)
    requires SkewLegs(road)
    requires forall a: nat, i: nat :: rand(a, i) == 0
    ensures CalculateRandomRoute(Trial(road, SkewGarage, SkewDisposal, SkewBins(), rand), 201.0).totalDistance == Fin(4.8)
  {
    var t := Trial(road, SkewGarage, SkewDisposal, SkewBins(), rand);
    var r0 := Attempt(t, 0);
    forall b | 0 <= b < MaxAttempts
      ensures Attempt(t, b) == r0
    {
      SkewShuffle(t, b);
      SkewShuffle(t, 0);
    }
    SkewShuffle(t, 0);
    SkewSwappedLength(road);
    UniformAttempts(t, 201.0, r0);
  }

  /** The alternative route can be shorter than the main route it is meant
      to exceed: on any road with these legs, the greedy tour drives
      1 + 100 + 100 = 201 km, while every random attempt drives 4 km, which
      is inflated to 4.8 km. */
  lemma AlternativeUndershoots(road: Road, rand: (nat, nat) -> nat)
    requires SkewLegs(road)
    requires forall a: nat, i: nat :: rand(a, i) == 0
    ensures var o := CalculateOptimalRoute(InitialState(), SkewBins(), Some(SkewGarage), Some(SkewDisposal), road, rand);
      && o.alert.None?
      && o.state.totalDistance == Fin(201.0)
      && o.state.alternativeTotalDistance == Fin(4.8)
      && Less(o.state.alternativeTotalDistance, o.state.totalDistance)
  {
    var o := CalculateOptimalRoute(InitialState(), SkewBins(), Some(SkewGarage), Some(SkewDisposal), road, rand);
    SkewRed();
    SkewGreedyOrder(road);
    SkewGreedyLength(road);
    assert o.alert != Some(CalculationFailed);
    assert o.alert != Some(NoRedBins) by {
      assert SkewBins()[0] in SkewBins();
    }
    assert o.alert.None?;
    assert o.state.totalDistance == Fin(201.0);
    SkewAlternative(road, rand);
  }

  /** The same with a concrete road: one-way distances keyed by latitude. */
  lemma AlternativeCanBeShorter()
    ensures var o := CalculateOptimalRoute(InitialState(), SkewBins(), Some(SkewGarage), Some(SkewDisposal),
                                           SkewRoad(), (a: nat, i: nat) => 0);
      && o.alert.None?
      && o.state.totalDistance == Fin(201.0)
      && o.state.alternativeTotalDistance == Fin(4.8)
  {
    SkewRoadLegs();
    AlternativeUndershoots(SkewRoad(), (a: nat, i: nat) => 0);
  }
}
