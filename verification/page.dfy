/** The home page's state and the handlers it passes to the map and to the
    route optimizer panel. Every edit of bins or endpoints clears the
    displayed main route; none of them clears the alternative route. */
module Page {
  import opened Wrappers
  import opened Geo
  import opened Bins
  import RouteOptimizer

  /** The page's state hooks that the core reads and writes. */
  datatype PageState = PageState(
    dustbins: seq<Bin>,
    route: seq<LatLng>,
    alternativeRoute: seq<LatLng>,
    garageLocation: Option<LatLng>,
    disposalSite: Option<LatLng>)

  /** The page as it first renders: nothing placed, nothing drawn. */
  function InitialPage(): (p: PageState)
    ensures |p.dustbins| == 0 && p.route == [] && p.alternativeRoute == []
    ensures p.garageLocation.None? && p.disposalSite.None?
  {
    PageState([], [], [], None, None)
  }

  /** `'red'` becomes `'green'`, anything else becomes `'red'`. */
  function Flip(s: Status): (t: Status)
    ensures t != s
  {
    if s == Red then Green else Red
  }

  /** `toggleDustbinStatus(id)`: flip the status of every bin carrying `id`. */
  function ToggleDustbinStatus(p: PageState, id: int): (r: PageState)
    ensures |r.dustbins| == |p.dustbins|
    ensures forall i | 0 <= i < |p.dustbins| ::
      && r.dustbins[i].id == p.dustbins[i].id
      && r.dustbins[i].pos == p.dustbins[i].pos
      && (p.dustbins[i].id == id ==> r.dustbins[i].status != p.dustbins[i].status)
      && (p.dustbins[i].id != id ==> r.dustbins[i] == p.dustbins[i])
    ensures r.route == []
    ensures r.alternativeRoute == p.alternativeRoute
    ensures r.garageLocation == p.garageLocation && r.disposalSite == p.disposalSite
  {
    var bins := seq(|p.dustbins|, i requires 0 <= i < |p.dustbins| =>
      var d := p.dustbins[i];
      if d.id == id then d.(status := Flip(d.status)) else d);
    p.(dustbins := bins, route := [])
  }

  /** Toggling the same bin twice restores the bin list. */
  lemma ToggleTwiceRestores(p: PageState, id: int)
    ensures ToggleDustbinStatus(ToggleDustbinStatus(p, id), id).dustbins == p.dustbins
  {
    var q := ToggleDustbinStatus(ToggleDustbinStatus(p, id), id);
    forall i | 0 <= i < |p.dustbins|
      ensures q.dustbins[i] == p.dustbins[i]
    {
      var d := p.dustbins[i];
      if d.id == id {
        assert q.dustbins[i].status == d.status by {
          assert d.status == Red || d.status == Green;
        }
      }
    }
  }

  /** `handleDustbinAdd(newDustbin)`: append the bin. */
  function HandleDustbinAdd(p: PageState, b: Bin): (r: PageState)
    ensures |r.dustbins| == |p.dustbins| + 1
    ensures r.dustbins[..|p.dustbins|] == p.dustbins && r.dustbins[|p.dustbins|] == b
    ensures r.route == []
    ensures r.alternativeRoute == p.alternativeRoute
    ensures r.garageLocation == p.garageLocation && r.disposalSite == p.disposalSite
  {
    p.(dustbins := p.dustbins + [b], route := [])
  }

  /** `dustbins.filter(d => d.id !== id)` */
  function WithoutId(bins: seq<Bin>, id: int): (r: seq<Bin>)
    ensures |r| <= |bins|
    ensures forall b :: b in r <==> b in bins && b.id != id
  {
    if |bins| == 0 then []
    else WithoutId(bins[..|bins| - 1], id) + (if bins[|bins| - 1].id != id then [bins[|bins| - 1]] else [])
  }

  /** The filter keeps the order of what it keeps: it distributes over
      concatenation. */
  lemma {:induction false} WithoutIdAppend(a: seq<Bin>, b: seq<Bin>, id: int)
    ensures WithoutId(a + b, id) == WithoutId(a, id) + WithoutId(b, id)
    decreases |b|
  {
    if |b| == 0 {
      assert a + b == a;
    } else {
      assert (a + b)[..|a + b| - 1] == a + b[..|b| - 1];
      WithoutIdAppend(a, b[..|b| - 1], id);
    }
  }

  /** Removing an id that no bin carries changes nothing. */
  lemma {:induction false} WithoutAbsentId(bins: seq<Bin>, id: int)
    requires forall b | b in bins :: b.id != id
    ensures WithoutId(bins, id) == bins
    decreases |bins|
  {
    if |bins| > 0 {
      assert bins[..|bins| - 1] + [bins[|bins| - 1]] == bins;
      WithoutAbsentId(bins[..|bins| - 1], id);
    }
  }

  /** `handleDustbinRemove(id)`: drop every bin carrying `id`. */
  function HandleDustbinRemove(p: PageState, id: int): (r: PageState)
    ensures |r.dustbins| <= |p.dustbins|
    ensures forall b :: b in r.dustbins <==> b in p.dustbins && b.id != id
    ensures r.route == []
    ensures r.alternativeRoute == p.alternativeRoute
    ensures r.garageLocation == p.garageLocation && r.disposalSite == p.disposalSite
  {
    p.(dustbins := WithoutId(p.dustbins, id), route := [])
  }

  /** Adding a bin with a fresh id and removing that id gives back the bin
      list. */
  lemma RemoveUndoesAdd(p: PageState, b: Bin)
    requires forall d | d in p.dustbins :: d.id != b.id
    ensures HandleDustbinRemove(HandleDustbinAdd(p, b), b.id).dustbins == p.dustbins
  {
    WithoutIdAppend(p.dustbins, [b], b.id);
    WithoutAbsentId(p.dustbins, b.id);
    assert WithoutId([b], b.id) == [] by {
      assert [b][..0] == [];
    }
  }

  /** `handleGarageLocationSet(location)`; `None` is `null`, which removes it. */
  function HandleGarageLocationSet(p: PageState, location: Option<LatLng>): (r: PageState)
    ensures r.garageLocation == location
    ensures r.route == []
    ensures r.dustbins == p.dustbins && r.alternativeRoute == p.alternativeRoute
    ensures r.disposalSite == p.disposalSite
  {
    p.(garageLocation := location, route := [])
  }

  /** `handleDisposalSiteSet(location)`; `None` is `null`, which removes it. */
  function HandleDisposalSiteSet(p: PageState, location: Option<LatLng>): (r: PageState)
    ensures r.disposalSite == location
    ensures r.route == []
    ensures r.dustbins == p.dustbins && r.alternativeRoute == p.alternativeRoute
    ensures r.garageLocation == p.garageLocation
  {
    p.(disposalSite := location, route := [])
  }

  /** `handleRouteCalculated(newRoute, newAlternativeRoute, garage, disposal)`:
      both routes are replaced; an endpoint is replaced only when one is given. */
  function HandleRouteCalculated(p: PageState, newRoute: seq<LatLng>, newAlternativeRoute: seq<LatLng>,
                                 garage: Option<LatLng>, disposal: Option<LatLng>): (r: PageState)
    ensures r.route == newRoute && r.alternativeRoute == newAlternativeRoute
    ensures r.dustbins == p.dustbins
    ensures garage.Some? ==> r.garageLocation == garage
    ensures disposal.Some? ==> r.disposalSite == disposal
    ensures garage.None? ==> r.garageLocation == p.garageLocation
    ensures disposal.None? ==> r.disposalSite == p.disposalSite
    ensures r.garageLocation.None? ==> p.garageLocation.None?
    ensures r.disposalSite.None? ==> p.disposalSite.None?
  {
    p.(route := newRoute, alternativeRoute := newAlternativeRoute,
       garageLocation := if garage.Some? then garage else p.garageLocation,
       disposalSite := if disposal.Some? then disposal else p.disposalSite)
  }

  /** The route panel's button, wired to this page: the calculation reads
      the page's bins and endpoints and reports back through
      `handleRouteCalculated` when it produced routes. */
  function PressCalculate(p: PageState, st: RouteOptimizer.OptimizerState, road: Road, rand: (nat, nat) -> nat)
    : (r: (PageState, RouteOptimizer.Outcome))
    ensures r.1 == RouteOptimizer.CalculateOptimalRoute(st, p.dustbins, p.garageLocation, p.disposalSite, road, rand)
    ensures r.1.callback.None? ==> r.0 == p
  {
    var o := RouteOptimizer.CalculateOptimalRoute(st, p.dustbins, p.garageLocation, p.disposalSite, road, rand);
    match o.callback
    case None => (p, o)
    case Some(cb) => (HandleRouteCalculated(p, cb.route, cb.alternativeRoute, cb.garage, cb.disposal), o)
  }

  /** A calculation never moves the endpoints or edits the bins, and the page
      ends up drawing the route the panel has selected (nothing when there
      was no red bin). */
  lemma CalculationKeepsPageInputs(p: PageState, st: RouteOptimizer.OptimizerState, road: Road, rand: (nat, nat) -> nat)
    ensures var (q, o) := PressCalculate(p, st, road, rand);
      && q.dustbins == p.dustbins
      && q.garageLocation == p.garageLocation && q.disposalSite == p.disposalSite
      && (o.alert == Some(RouteOptimizer.NoRedBins) ==> q.route == [] && q.alternativeRoute == [])
      && (o.alert.None? && st.selectedRoute == RouteOptimizer.Nearest ==>
            q.route == o.state.storedMainRoute.value.route && q.alternativeRoute == [])
      && (o.alert.None? && st.selectedRoute == RouteOptimizer.Alternative ==>
            q.alternativeRoute == o.state.storedAltRoute.value.route && q.route == [])
  {
  }
}
