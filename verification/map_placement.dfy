/** Placing things on the map: a click opens a confirmation for the clicked
    point, and confirming adds a bin or sets the garage or the disposal site
    according to the selected mode. The garage and the disposal site are
    never overwritten: they must be removed first. */
module MapPlacement {
  import opened Wrappers
  import opened Geo
  import opened Bins
  import opened Page

  /** What a confirmed click places. */
  datatype ClickMode = DustbinMode | GarageMode | DisposalMode

  /** The map's own state hooks. */
  datatype MapUi = MapUi(clickMode: ClickMode, showConfirmation: bool, clickedLocation: Option<LatLng>)

  /** The map as it first renders: adding bins, no dialog open. */
  function InitialUi(): (ui: MapUi)
    ensures ui.clickMode == DustbinMode && !ui.showConfirmation && ui.clickedLocation.None?
  {
    MapUi(DustbinMode, false, None)
  }

  /** The two alerts a confirmation can raise. */
  datatype PlacementAlert = GarageAlreadySet | DisposalAlreadySet

  /** The map and the page after a confirmation, and the alert shown, if any. */
  datatype Placement = Placement(ui: MapUi, page: PageState, alert: Option<PlacementAlert>)

  /** `handleMapClick`: remember the point and open the confirmation. */
  function HandleMapClick(ui: MapUi, location: LatLng): (r: MapUi)
    ensures r.clickedLocation == Some(location) && r.showConfirmation
    ensures r.clickMode == ui.clickMode
  {
    ui.(clickedLocation := Some(location), showConfirmation := true)
  }

  /** `handleCancel`: close the confirmation and forget the point. */
  function HandleCancel(ui: MapUi): (r: MapUi)
    ensures !r.showConfirmation && r.clickedLocation.None?
    ensures r.clickMode == ui.clickMode
  {
    ui.(showConfirmation := false, clickedLocation := None)
  }

  /** The bin a confirmation in bin mode creates: numbered one past the
      current count, not yet full. */
  function NewDustbin(p: PageState, location: LatLng): (b: Bin)
    ensures b.pos == location && b.status == Green
    ensures b.id == |p.dustbins| + 1
  {
    Bin(|p.dustbins| + 1, location, Green)
  }

  /** `handleConfirm`. */
  function HandleConfirm(ui: MapUi, p: PageState): (r: Placement)
    // without a clicked point nothing happens
    ensures ui.clickedLocation.None? ==> r == Placement(ui, p, None)
    // an endpoint that is already set is refused, and the dialog stays open
    ensures r.alert == Some(GarageAlreadySet) <==>
      ui.clickedLocation.Some? && ui.clickMode == GarageMode && p.garageLocation.Some?
    ensures r.alert == Some(DisposalAlreadySet) <==>
      ui.clickedLocation.Some? && ui.clickMode == DisposalMode && p.disposalSite.Some?
    ensures r.alert.Some? ==> r.ui == ui && r.page == p
    // otherwise the point is placed and the dialog closes
    ensures ui.clickedLocation.Some? && r.alert.None? ==>
      && r.ui == HandleCancel(ui)
      && r.page == match ui.clickMode
         case DustbinMode => HandleDustbinAdd(p, NewDustbin(p, ui.clickedLocation.value))
         case GarageMode => HandleGarageLocationSet(p, ui.clickedLocation)
         case DisposalMode => HandleDisposalSiteSet(p, ui.clickedLocation)
    // an endpoint already placed is never replaced
    ensures p.garageLocation.Some? ==> r.page.garageLocation == p.garageLocation
    ensures p.disposalSite.Some? ==> r.page.disposalSite == p.disposalSite
  {
    match ui.clickedLocation
    case None => Placement(ui, p, None)
    case Some(location) =>
      match ui.clickMode
      case DustbinMode =>
        Placement(HandleCancel(ui), HandleDustbinAdd(p, NewDustbin(p, location)), None)
      case GarageMode =>
        if p.garageLocation.Some? then Placement(ui, p, Some(GarageAlreadySet))
        else Placement(HandleCancel(ui), HandleGarageLocationSet(p, Some(location)), None)
      case DisposalMode =>
        if p.disposalSite.Some? then Placement(ui, p, Some(DisposalAlreadySet))
        else Placement(HandleCancel(ui), HandleDisposalSiteSet(p, Some(location)), None)
  }

  /** The mode buttons: "Set Garage" and "Set Disposal" are disabled while
      that endpoint is set, and a disabled button does nothing. */
  function SelectMode(ui: MapUi, p: PageState, mode: ClickMode): (r: MapUi)
    ensures r.clickMode == mode <==>
      ui.clickMode == mode || mode == DustbinMode || (mode == GarageMode && p.garageLocation.None?) ||
      (mode == DisposalMode && p.disposalSite.None?)
    ensures r == ui || r == ui.(clickMode := mode)
  {
    var disabled := match mode
      case DustbinMode => false
      case GarageMode => p.garageLocation.Some?
      case DisposalMode => p.disposalSite.Some?;
    if disabled then ui else ui.(clickMode := mode)
  }

  /** The garage marker's "Remove Garage" button: clear the garage and switch
      to garage mode, ready to place a new one. */
  function RemoveGarage(ui: MapUi, p: PageState): (r: (MapUi, PageState))
    ensures r.1.garageLocation.None? && r.1.route == []
    ensures r.1.dustbins == p.dustbins && r.1.disposalSite == p.disposalSite
    ensures r.0.clickMode == GarageMode
    ensures r.0.showConfirmation == ui.showConfirmation && r.0.clickedLocation == ui.clickedLocation
  {
    (ui.(clickMode := GarageMode), HandleGarageLocationSet(p, None))
  }

  /** The disposal marker's "Remove Disposal Site" button: clear the site;
      the mode is left as it was. */
  function RemoveDisposal(ui: MapUi, p: PageState): (r: (MapUi, PageState))
    ensures r.1.disposalSite.None? && r.1.route == []
    ensures r.1.dustbins == p.dustbins && r.1.garageLocation == p.garageLocation
    ensures r.0 == ui
  {
    (ui, HandleDisposalSiteSet(p, None))
  }

  /** Removing the garage, clicking a point and confirming places the new
      garage there, with no mode change in between. */
  lemma RemoveThenPlaceGarage(ui: MapUi, p: PageState, location: LatLng)
    ensures var (ui1, p1) := RemoveGarage(ui, p);
      var r := HandleConfirm(HandleMapClick(ui1, location), p1);
      && r.alert.None?
      && r.page.garageLocation == Some(location)
      && r.page.disposalSite == p.disposalSite && r.page.dustbins == p.dustbins
      && !r.ui.showConfirmation
  {
  }

  /** Removing the disposal site does not select disposal mode: in bin mode
      the next confirmed click adds a bin and the site stays unset. */
  lemma RemoveDisposalKeepsMode(ui: MapUi, p: PageState, location: LatLng)
    requires ui.clickMode == DustbinMode
    ensures var (ui1, p1) := RemoveDisposal(ui, p);
      var r := HandleConfirm(HandleMapClick(ui1, location), p1);
      && r.page.disposalSite.None?
      && |r.page.dustbins| == |p.dustbins| + 1
  {
  }

  /** The bins' ids are 1, 2, ..., n in list order. */
  predicate NumberedInOrder(bins: seq<Bin>) {
    forall i | 0 <= i < |bins| :: bins[i].id == i + 1
  }

  /** As long as bins are only added through the map, their ids stay
      1, 2, ..., n, so no two bins share an id. */
  lemma ConfirmKeepsNumbering(ui: MapUi, p: PageState)
    requires NumberedInOrder(p.dustbins)
    ensures NumberedInOrder(HandleConfirm(ui, p).page.dustbins)
    ensures forall i, j | 0 <= i < j < |HandleConfirm(ui, p).page.dustbins| ::
      HandleConfirm(ui, p).page.dustbins[i].id != HandleConfirm(ui, p).page.dustbins[j].id
  {
  }

  /** After a removal, the next bin added can reuse an id still in use: with
      bins 1 and 2, removing bin 1 and adding a bin gives two bins numbered 2. */
  lemma IdsCanRepeat(location: LatLng)
    ensures var p := PageState([Bin(1, location, Green), Bin(2, location, Red)], [], [], None, None);
      var ui := MapUi(DustbinMode, true, Some(location));
      var q := HandleConfirm(ui, HandleDustbinRemove(p, 1)).page;
      |q.dustbins| == 2 && q.dustbins[0].id == 2 && q.dustbins[1].id == 2
  {
    var p := PageState([Bin(1, location, Green), Bin(2, location, Red)], [], [], None, None);
    var bins := p.dustbins;
    assert bins[..1] == [bins[0]];
    assert [bins[0]][..0] == [];
    assert WithoutId(bins, 1) == [bins[1]];
  }
}
