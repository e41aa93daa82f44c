/** The desktop home page: the point-of-interest filter by category and
    name search, the marker colour of a category, and the map view whose
    marker list is rebuilt from scratch on every refresh. */
module HomeMap {
  import opened Common
  import opened Strings

  /** A point of interest; coordinates are in units of 1e-4 degree. */
  datatype Poi = Poi(id: int, name: string, category: string, lat: int, lng: int, description: string, time: string)

  // --------------------------------------------------------------- filter

  /** The category menu's choice admits the POI, and its lower-cased name
      holds the lower-cased search text. */
  predicate Matches(poi: Poi, selectedCategory: string, searchTerm: string)
  {
    (selectedCategory == "all" || poi.category == selectedCategory)
    && Contains(Lower(poi.name), Lower(searchTerm))
  }

  function MatchesFilter(selectedCategory: string, searchTerm: string): Poi -> bool
  {
    (poi: Poi) => Matches(poi, selectedCategory, searchTerm)
  }

  /** `filteredPOIs`: the POIs the filter admits, in list order. */
  function FilteredPois(pois: seq<Poi>, selectedCategory: string, searchTerm: string): (r: seq<Poi>)
    ensures forall p :: p in r <==> p in pois && Matches(p, selectedCategory, searchTerm)
  {
    Filter(pois, MatchesFilter(selectedCategory, searchTerm))
  }

  /** "All" with no search text keeps every POI, in order. */
  lemma FilterAllEmpty(pois: seq<Poi>)
    ensures FilteredPois(pois, "all", "") == pois
  {
    forall i | 0 <= i < |pois|
      ensures Matches(pois[i], "all", "")
    {
      ContainsEmpty(Lower(pois[i].name));
    }
    FilterKeepsAll(pois, MatchesFilter("all", ""));
  }

  /** Filtering keeps the relative order of the POIs. */
  lemma FilterKeepsOrder(a: seq<Poi>, b: seq<Poi>, selectedCategory: string, searchTerm: string)
    ensures FilteredPois(a + b, selectedCategory, searchTerm)
            == FilteredPois(a, selectedCategory, searchTerm) + FilteredPois(b, selectedCategory, searchTerm)
  {
    FilterAppend(a, b, MatchesFilter(selectedCategory, searchTerm));
  }

  /** The search ignores letter case: a search text matches the same POIs
      as its lower-cased form. */
  lemma SearchIgnoresCase(pois: seq<Poi>, selectedCategory: string, searchTerm: string)
    ensures FilteredPois(pois, selectedCategory, Lower(searchTerm)) == FilteredPois(pois, selectedCategory, searchTerm)
  {
    LowerIdempotent(searchTerm);
    FilterSamePredicate(pois, MatchesFilter(selectedCategory, Lower(searchTerm)), MatchesFilter(selectedCategory, searchTerm));
  }

  // -------------------------------------------------------------- colours

  /** The colour table of the markers. */
  const CategoryColors: map<string, string> := map[
    "campus" := "#667eea",
    "dining" := "#feca57",
    "recreation" := "#48dbfb",
    "classes" := "#4ecdc4",
    "events" := "#ff6b6b"]

  const FallbackColor := "#667eea"

  /** A category's colour, and the fallback for a category not in the
      table. */
  function ColorOf(category: string): (r: string)
    ensures category in CategoryColors ==> r == CategoryColors[category]
    ensures category !in CategoryColors ==> r == FallbackColor
    ensures r in CategoryColors.Values
  {
    if category in CategoryColors then CategoryColors[category] else
      assert CategoryColors["campus"] == FallbackColor;
      FallbackColor
  }

  /** An unknown category looks like a campus. */
  lemma UnknownLooksLikeCampus(category: string)
    requires category !in CategoryColors
    ensures ColorOf(category) == ColorOf("campus")
  {
  }

  // ---------------------------------------------------------------- map

  /** A marker drawn for a POI. */
  datatype Marker = Marker(poiId: int, lat: int, lng: int, color: string)

  function MarkerOf(poi: Poi): Marker
  {
    Marker(poi.id, poi.lat, poi.lng, ColorOf(poi.category))
  }

  /** The markers of a list of POIs: one per POI, in order. */
  function MarkersOf(pois: seq<Poi>): (r: seq<Marker>)
    ensures |r| == |pois|
    ensures forall i :: 0 <= i < |pois| ==>
              r[i].poiId == pois[i].id && r[i].color == ColorOf(pois[i].category)
              && r[i].lat == pois[i].lat && r[i].lng == pois[i].lng
  {
    seq(|pois|, i requires 0 <= i < |pois| => MarkerOf(pois[i]))
  }

  lemma MarkersOfAppend(a: seq<Poi>, b: seq<Poi>)
    ensures MarkersOf(a + b) == MarkersOf(a) + MarkersOf(b)
  {
  }

  /** The map view: whether a map instance exists, the markers the page
      keeps for it, and the filter controls. */
  class MapView {
    var hasMap: bool
    var markers: seq<Marker>
    var pois: seq<Poi>
    var selectedCategory: string
    var searchTerm: string

    /** The page before the map loads: all categories, no search. */
    constructor (pois: seq<Poi>)
      ensures !hasMap && markers == [] && this.pois == pois
      ensures selectedCategory == "all" && searchTerm == ""
    {
      hasMap := false;
      markers := [];
      this.pois := pois;
      selectedCategory := "all";
      searchTerm := "";
    }

    /** The POIs the current filter admits. */
    function Visible(): (r: seq<Poi>)
      reads this
      ensures forall p :: p in r <==> p in pois && Matches(p, selectedCategory, searchTerm)
    {
      FilteredPois(pois, selectedCategory, searchTerm)
    }

    /** `updateMapMarkers`: nothing without a map (or the map library);
        otherwise every old marker is dropped and one marker is pushed per
        POI, in order. */
    method UpdateMapMarkers(poisToShow: seq<Poi>, libraryLoaded: bool)
      modifies this
      ensures hasMap == old(hasMap) && pois == old(pois)
      ensures selectedCategory == old(selectedCategory) && searchTerm == old(searchTerm)
      ensures markers == if old(hasMap) && libraryLoaded then MarkersOf(poisToShow) else old(markers)
    {
      if !hasMap || !libraryLoaded {
        return;
      }
      markers := [];
      for i := 0 to |poisToShow|
        invariant hasMap && pois == old(pois)
        invariant selectedCategory == old(selectedCategory) && searchTerm == old(searchTerm)
        invariant markers == MarkersOf(poisToShow[..i])
      {
        assert poisToShow[..i + 1] == poisToShow[..i] + [poisToShow[i]];
        MarkersOfAppend(poisToShow[..i], [poisToShow[i]]);
        markers := markers + [MarkerOf(poisToShow[i])];
      }
      assert poisToShow[..|poisToShow|] == poisToShow;
    }

    /** `initMap`: a map instance is made only when the container exists
        and there is none yet, and it then shows every POI. */
    method InitMap(containerPresent: bool)
      modifies this
      ensures hasMap == (old(hasMap) || containerPresent)
      ensures pois == old(pois) && selectedCategory == old(selectedCategory) && searchTerm == old(searchTerm)
      ensures markers == if !old(hasMap) && containerPresent then MarkersOf(pois) else old(markers)
    {
      if containerPresent && !hasMap {
        hasMap := true;
        UpdateMapMarkers(pois, true);
      }
    }

    /** The clean-up on leaving the page: the map instance goes; the
        marker list itself is left as it was. */
    method Cleanup()
      modifies this
      ensures !hasMap
      ensures markers == old(markers) && pois == old(pois)
      ensures selectedCategory == old(selectedCategory) && searchTerm == old(searchTerm)
    {
      if hasMap {
        hasMap := false;
      }
    }

    /** Choosing a category: the markers follow the filter when a map
        exists. */
    method SelectCategory(category: string)
      modifies this
      ensures selectedCategory == category && searchTerm == old(searchTerm)
      ensures hasMap == old(hasMap) && pois == old(pois)
      ensures markers == if hasMap then MarkersOf(Visible()) else old(markers)
    {
      selectedCategory := category;
      if hasMap {
        UpdateMapMarkers(Visible(), true);
      }
    }

    /** Typing in the search box: the markers follow the filter when a map
        exists. */
    method Search(term: string)
      modifies this
      ensures searchTerm == term && selectedCategory == old(selectedCategory)
      ensures hasMap == old(hasMap) && pois == old(pois)
      ensures markers == if hasMap then MarkersOf(Visible()) else old(markers)
    {
      searchTerm := term;
      if hasMap {
        UpdateMapMarkers(Visible(), true);
      }
    }
  }

  /** Refreshing twice leaves one marker per POI, not two: the list never
      accumulates. */
  method RefreshTwice(view: MapView, poisToShow: seq<Poi>) returns (count: nat)
    requires view.hasMap
    modifies view
    ensures count == |poisToShow| && view.markers == MarkersOf(poisToShow)
  {
    view.UpdateMapMarkers(poisToShow, true);
    view.UpdateMapMarkers(poisToShow, true);
    count := |view.markers|;
  }
}
