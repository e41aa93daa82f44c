/** The mobile layout: its four tabs, the map that is built only on the map
    tab and torn down when the tab or the POI list changes, the circle
    markers it draws for the POIs that have coordinates, the selected
    location with its popup, and the starred-item counts of the profile
    tab. */
module MobileApp {
  import opened Common
  import Calendar

  /** A point of interest as the mobile page receives it; a coordinate is
      in units of 1e-4 degree and may be missing. */
  datatype Poi = Poi(id: int, name: string, category: string, college: string, lat: Option<int>, lng: Option<int>)

  /** A coordinate JavaScript treats as true: present and not zero. */
  predicate Truthy(c: Option<int>)
  {
    c.Some? && c.value != 0
  }

  /** A POI gets a marker only when both of its coordinates are truthy, so
      a POI on the equator or the prime meridian gets none. */
  predicate Placeable(poi: Poi)
  {
    Truthy(poi.lat) && Truthy(poi.lng)
  }

  // -------------------------------------------------------------- colours

  /** The marker fill colours of the four categories. */
  const CategoryColors: map<string, string> := map[
    "dining" := "#f39c12",
    "academic" := "#27ae60",
    "recreation" := "#e74c3c",
    "other" := "#95a5a6"]

  /** A category's fill colour; a category outside the table is drawn as
      "other". */
  function FillColor(category: string): (r: string)
    ensures category in CategoryColors ==> r == CategoryColors[category]
    ensures category !in CategoryColors ==> r == CategoryColors["other"]
    ensures r in CategoryColors.Values
  {
    if category in CategoryColors then CategoryColors[category] else CategoryColors["other"]
  }

  // -------------------------------------------------------------- markers

  /** A circle marker on the map: the POI it selects when clicked, where
      it stands and its fill colour. */
  datatype CircleMarker = CircleMarker(poiId: int, lat: int, lng: int, fill: string)

  /** The markers one POI adds: one when it is placeable, none otherwise. */
  function MarkerPiece(poi: Poi): (r: seq<CircleMarker>)
    ensures |r| == if Placeable(poi) then 1 else 0
  {
    if Placeable(poi) then [CircleMarker(poi.id, poi.lat.value, poi.lng.value, FillColor(poi.category))] else []
  }

  /** The markers a list of POIs adds, in list order. */
  function MarkersFor(pois: seq<Poi>): seq<CircleMarker>
  {
    ConcatMap(pois, MarkerPiece)
  }

  function IsPlaceable(): Poi -> bool
  {
    (poi: Poi) => Placeable(poi)
  }

  /** The markers line up one to one, in order, with the placeable POIs:
      each stands at its POI's coordinates in its category's colour. */
  lemma MarkersArePlaceablePois(pois: seq<Poi>)
    ensures var placed := Filter(pois, IsPlaceable());
            |MarkersFor(pois)| == |placed|
            && forall i :: 0 <= i < |placed| ==>
                 MarkersFor(pois)[i] == CircleMarker(placed[i].id, placed[i].lat.value, placed[i].lng.value, FillColor(placed[i].category))
  {
    ConcatMapIsFilter(pois, MarkerPiece, IsPlaceable());
  }

  /** A POI that is not placeable adds no marker wherever it stands in the
      list. */
  lemma UnplaceableAddsNothing(before: seq<Poi>, poi: Poi, after: seq<Poi>)
    requires !Placeable(poi)
    ensures MarkersFor(before + [poi] + after) == MarkersFor(before + after)
  {
    ConcatMapAppend(before + [poi], after, MarkerPiece);
    ConcatMapAppend(before, [poi], MarkerPiece);
    ConcatMapAppend(before, after, MarkerPiece);
    assert [poi][1..] == [];
  }

  // --------------------------------------------------------------- counts

  function OfType(t: string): Calendar.Star -> bool
  {
    (s: Calendar.Star) => s.itemType == t
  }

  /** The number of starred items of one type: the profile tab shows it for
      "event" as its "Events" figure and for "location" as its "Locations"
      figure. */
  function StarredCount(items: seq<Calendar.Star>, t: string): (r: nat)
    ensures r <= |items|
    ensures r == |set i | 0 <= i < |items| && items[i].itemType == t|
    ensures r == 0 <==> forall i :: 0 <= i < |items| ==> items[i].itemType != t
  {
    var kept := Filter(items, OfType(t));
    StarredPositions(items, t);
    if |kept| == 0 then FilterKeepsNone(items, OfType(t)); 0
    else assert kept[0] in items; |kept|
  }

  lemma StarredPositions(items: seq<Calendar.Star>, t: string)
    ensures |Filter(items, OfType(t))| == |set i | 0 <= i < |items| && items[i].itemType == t|
  {
    FilterCountsPositions(items, OfType(t));
    var a := Positions(items, OfType(t));
    var b := set i | 0 <= i < |items| && items[i].itemType == t;
    assert a == b by {
      forall i ensures i in a <==> i in b {
        if 0 <= i < |items| { assert OfType(t)(items[i]) == (items[i].itemType == t); }
      }
    }
    assert |Filter(items, OfType(t))| == |a|;
    assert |a| == |b|;
  }

  /** The two figures never add up to more than the starred total, and add
      up to it exactly when every item is an event or a location. */
  lemma StarredCountsSum(items: seq<Calendar.Star>)
    ensures StarredCount(items, "event") + StarredCount(items, "location") <= |items|
    ensures StarredCount(items, "event") + StarredCount(items, "location") == |items|
            <==> forall i :: 0 <= i < |items| ==> items[i].itemType == "event" || items[i].itemType == "location"
  {
    FilterPairCount(items, OfType("event"), OfType("location"));
  }

  // ---------------------------------------------------------------- state

  datatype Tab = HomeTab | MapTab | CalendarTab | ProfileTab

  /** Where the map is centred and its zoom level. */
  datatype MapView = MapView(lat: int, lng: int, zoom: nat)

  /** The opening view of a new map: the middle of the campuses at zoom
      16. */
  const InitialView := MapView(341000, -1177090, 16)

  /** The page's state cells and the map instance with the markers drawn
      on it. */
  class MobilePage {
    var activeTab: Tab
    var selectedLocation: Option<Poi>
    var showCourses: bool
    var showLocationDetail: bool
    var userLocation: Option<(int, int)>
    var hasMap: bool
    var markers: seq<CircleMarker>
    var view: MapView

    /** Consistency of the map: without an instance there are no markers. */
    predicate Valid()
      reads this
    {
      !hasMap ==> markers == []
    }

    /** The page as it opens: the home tab, nothing selected, no map. */
    constructor ()
      ensures Valid()
      ensures activeTab == HomeTab && selectedLocation.None? && !showCourses && !showLocationDetail
      ensures userLocation.None? && !hasMap && markers == [] && view == InitialView
    {
      activeTab := HomeTab;
      selectedLocation := None;
      showCourses := false;
      showLocationDetail := false;
      userLocation := None;
      hasMap := false;
      markers := [];
      view := InitialView;
    }

    /** Whether the map effect builds a map now. */
    predicate MayBuildMap(containerPresent: bool, pois: seq<Poi>)
      reads this
    {
      activeTab == MapTab && containerPresent && !hasMap && |pois| > 0
    }

    /** The map effect: a map is built only on the map tab, with its
        container present, no map yet and at least one POI; it then gets
        one marker per placeable POI, in list order. */
    method InitMap(containerPresent: bool, pois: seq<Poi>)
      requires Valid()
      modifies this
      ensures Valid()
      ensures hasMap == (old(hasMap) || old(MayBuildMap(containerPresent, pois)))
      ensures markers == if old(MayBuildMap(containerPresent, pois)) then MarkersFor(pois) else old(markers)
      ensures view == if old(MayBuildMap(containerPresent, pois)) then InitialView else old(view)
      ensures activeTab == old(activeTab) && selectedLocation == old(selectedLocation)
      ensures showCourses == old(showCourses) && showLocationDetail == old(showLocationDetail)
      ensures userLocation == old(userLocation)
    {
      if activeTab == MapTab && containerPresent && !hasMap && |pois| > 0 {
        hasMap := true;
        view := InitialView;
        var drawn: seq<CircleMarker> := [];
        for i := 0 to |pois|
          modifies {}
          invariant drawn == MarkersFor(pois[..i])
        {
          ConcatMapStep(pois, i, MarkerPiece);
          var poi := pois[i];
          if !Placeable(poi) {
            continue;
          }
          drawn := drawn + [CircleMarker(poi.id, poi.lat.value, poi.lng.value, FillColor(poi.category))];
        }
        assert pois[..|pois|] == pois;
        markers := drawn;
      }
    }

    /** The effect's clean-up: the map instance is removed with everything
        drawn on it, and the reference is reset. */
    method Cleanup()
      requires Valid()
      modifies this
      ensures Valid()
      ensures !hasMap && markers == []
      ensures activeTab == old(activeTab) && selectedLocation == old(selectedLocation)
      ensures showCourses == old(showCourses) && showLocationDetail == old(showLocationDetail)
      ensures userLocation == old(userLocation) && view == old(view)
    {
      if hasMap {
        hasMap := false;
        markers := [];
      }
    }

    /** A bottom-bar button: a different tab tears down the current map
        and runs the map effect again under the new tab; the map tab's
        container exists exactly when the map tab is shown. */
    method SwitchTab(tab: Tab, pois: seq<Poi>)
      requires Valid()
      modifies this
      ensures Valid()
      ensures activeTab == tab
      ensures tab != old(activeTab) ==>
                hasMap == (tab == MapTab && |pois| > 0)
                && markers == (if hasMap then MarkersFor(pois) else [])
      ensures tab != old(activeTab) ==> view == if hasMap then InitialView else old(view)
      ensures tab == old(activeTab) ==> hasMap == old(hasMap) && markers == old(markers) && view == old(view)
      ensures selectedLocation == old(selectedLocation) && showCourses == old(showCourses)
      ensures showLocationDetail == old(showLocationDetail) && userLocation == old(userLocation)
    {
      if tab != activeTab {
        Cleanup();
        activeTab := tab;
        InitMap(tab == MapTab, pois);
      }
    }

    /** Clicking a marker selects its POI. */
    method ClickMarker(poi: Poi)
      modifies this`selectedLocation
      ensures selectedLocation == Some(poi)
    {
      selectedLocation := Some(poi);
    }

    /** The popup's close button clears the selection. */
    method ClosePopup()
      modifies this`selectedLocation
      ensures selectedLocation.None?
    {
      selectedLocation := None;
    }

    /** `handleLocationClick`: the location is selected and its detail
        sheet opens. The page defines this handler but no element calls
        it; the popup's button is `SeeDetails`. */
    method HandleLocationClick(poi: Poi)
      modifies this`selectedLocation, this`showLocationDetail
      ensures selectedLocation == Some(poi) && showLocationDetail
    {
      selectedLocation := Some(poi);
      showLocationDetail := true;
    }

    /** The popup's "See Details" button: the detail sheet opens for the
        location already selected; the selection itself is untouched. */
    method SeeDetails()
      modifies this`showLocationDetail
      ensures showLocationDetail
    {
      showLocationDetail := true;
    }

    /** The one-shot geolocation answer. */
    method SetUserLocation(lat: int, lng: int)
      modifies this`userLocation
      ensures userLocation == Some((lat, lng))
    {
      userLocation := Some((lat, lng));
    }

    /** `centerOnUser`: with both a known position and a map, the view
        requested of the map is the position at zoom 17; otherwise nothing
        happens. The map may clamp that centre to its bounds. */
    method CenterOnUser()
      modifies this`view
      ensures userLocation.Some? && hasMap ==> view == MapView(userLocation.value.0, userLocation.value.1, 17)
      ensures userLocation.None? || !hasMap ==> view == old(view)
    {
      if userLocation.Some? && hasMap {
        view := MapView(userLocation.value.0, userLocation.value.1, 17);
      }
    }

    /** "Find classes" opens the course browser. */
    method OpenCourses()
      modifies this`showCourses
      ensures showCourses
    {
      showCourses := true;
    }

    /** "View on map" in the course browser: the course's location is
        selected, the browser closes and the map tab opens. */
    method ViewOnMapFromCourses(location: Poi, pois: seq<Poi>)
      requires Valid()
      modifies this
      ensures Valid()
      ensures selectedLocation == Some(location) && !showCourses && activeTab == MapTab
      ensures old(activeTab) != MapTab ==> hasMap == (|pois| > 0) && markers == (if hasMap then MarkersFor(pois) else [])
      ensures old(activeTab) != MapTab ==> view == if hasMap then InitialView else old(view)
      ensures old(activeTab) == MapTab ==> hasMap == old(hasMap) && markers == old(markers) && view == old(view)
      ensures showLocationDetail == old(showLocationDetail) && userLocation == old(userLocation)
    {
      selectedLocation := Some(location);
      showCourses := false;
      SwitchTab(MapTab, pois);
    }
  }

  /** Leaving the map tab and coming back draws the markers afresh: the
      map holds one marker per placeable POI, never two. */
  method MapTabTwice(page: MobilePage, pois: seq<Poi>) returns (count: nat)
    requires page.Valid() && page.activeTab == MapTab && |pois| > 0
    modifies page
    ensures count == |Filter(pois, IsPlaceable())|
    ensures page.markers == MarkersFor(pois)
  {
    page.SwitchTab(HomeTab, pois);
    page.SwitchTab(MapTab, pois);
    count := |page.markers|;
    MarkersArePlaceablePois(pois);
  }
}
