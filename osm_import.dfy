/** The OpenStreetMap building import: the two keyword classifiers, the loop
    that turns the Overpass elements into buildings (dropping unnamed,
    repeated, basement, parking and out-of-area entries), the sort by
    (college, name) and the grouping by category. */
module OsmImport {
  import opened Common
  import opened Strings

  // ------------------------------------------------------------ classifiers

  const DiningWords: seq<string> :=
    ["dining", "cafe", "restaurant", "food", "commons", "frary", "frank", "collins", "malott", "hoch", "mcconnell"]
  const RecreationWords: seq<string> :=
    ["gym", "rains", "pool", "athletic", "recreation", "ducey", "voelkel", "fitness"]
  const AcademicWords: seq<string> :=
    ["hall", "center", "building", "lab", "library", "auditorium", "beckman", "seaver", "carnegie", "kravis", "parsons", "bridges"]

  /** `any(word in name_lower for word in words)`. */
  predicate HasWord(nameLower: string, words: seq<string>)
  {
    exists k :: 0 <= k < |words| && Contains(nameLower, words[k])
  }

  /** `categorize_building`: dining, then recreation, then academic
      keywords, looked for in the lower-cased name; "other" when none
      occurs. */
  function CategorizeBuilding(name: string): (r: string)
    ensures r in {"dining", "recreation", "academic", "other"}
    ensures r == "dining" <==> HasWord(Lower(name), DiningWords)
    ensures r == "recreation" <==> !HasWord(Lower(name), DiningWords) && HasWord(Lower(name), RecreationWords)
    ensures r == "academic" <==> !HasWord(Lower(name), DiningWords) && !HasWord(Lower(name), RecreationWords)
                                 && HasWord(Lower(name), AcademicWords)
  {
    var nameLower := Lower(name);
    if HasWord(nameLower, DiningWords) then "dining"
    else if HasWord(nameLower, RecreationWords) then "recreation"
    else if HasWord(nameLower, AcademicWords) then "academic"
    else "other"
  }

  /** The keyword tables as one priority list. */
  const CategoryTable: seq<(seq<string>, string)> :=
    [(DiningWords, "dining"), (RecreationWords, "recreation"), (AcademicWords, "academic")]

  /** Reference reading: the category of the first table row one of whose
      words occurs, else "other". */
  function CategoryByTable(name: string): string
  {
    match FindFirst(CategoryTable, (row: (seq<string>, string)) => HasWord(Lower(name), row.0))
    case None => "other"
    case Some(i) => CategoryTable[i].1
  }

  lemma CategorizeByTable(name: string)
    ensures CategorizeBuilding(name) == CategoryByTable(name)
  {
    var p := (row: (seq<string>, string)) => HasWord(Lower(name), row.0);
    assert p(CategoryTable[0]) == HasWord(Lower(name), DiningWords);
    assert p(CategoryTable[1]) == HasWord(Lower(name), RecreationWords);
    assert p(CategoryTable[2]) == HasWord(Lower(name), AcademicWords);
  }

  /** "Frank Dining Hall" is dining although it also holds "hall": a dining
      keyword anywhere in the lower-cased name wins. */
  lemma CategorizeDiningFirst(name: string, k: nat, j: nat)
    requires k < |DiningWords| && HoldsAt(Lower(name), j, DiningWords[k])
    ensures CategorizeBuilding(name) == "dining"
  {
    ContainsAt(Lower(name), DiningWords[k], j);
  }

  /** "Frank Dining Hall" is a dining hall. */
  lemma FrankDiningHall(n: string)
    requires n == "Frank Dining Hall"
    ensures CategorizeBuilding(n) == "dining"
  {
    var t := Lower(n);
    assert HoldsAt(t, 6, DiningWords[0]) by {
      forall j | 0 <= j < 6 ensures t[6 + j] == DiningWords[0][j] {
        assert t[6 + j] == LowerChar(n[6 + j]);
      }
    }
    CategorizeDiningFirst(n, 0, 6);
  }

  /** Each dining word holds one of the letters d, f, u, m, k, o. */
  lemma NoDiningWord(t: string)
    requires forall i :: 0 <= i < |t| ==> t[i] !in "dfumko"
    ensures !HasWord(t, DiningWords)
  {
    var absent: seq<nat> := [0, 2, 5, 0, 1, 0, 4, 1, 0, 1, 0];
    forall k | 0 <= k < |DiningWords| ensures !Contains(t, DiningWords[k]) {
      assert DiningWords[k][absent[k]] in "dfumko";
      if Contains(t, DiningWords[k]) {
        ContainsKeepsChars(t, DiningWords[k], absent[k]);
        assert false;
      }
    }
  }

  /** "Rains Athletic Center" is a recreation building: every dining word
      holds a letter the name lacks, and "rains" is a recreation word. */
  lemma RainsAthleticCenter(n: string)
    requires n == "Rains Athletic Center"
    ensures CategorizeBuilding(n) == "recreation"
  {
    RainsNoDining(n);
    RainsRecreation(n);
  }

  lemma RainsNoDining(n: string)
    requires n == "Rains Athletic Center"
    ensures !HasWord(Lower(n), DiningWords)
  {
    var t := Lower(n);
    forall i | 0 <= i < |t| ensures t[i] !in "dfumko" {
      assert t[i] == LowerChar(n[i]);
    }
    NoDiningWord(t);
  }

  lemma RainsRecreation(n: string)
    requires n == "Rains Athletic Center"
    ensures HasWord(Lower(n), RecreationWords)
  {
    var t := Lower(n);
    assert HoldsAt(t, 0, RecreationWords[1]) by {
      forall j | 0 <= j < 5 ensures t[j] == RecreationWords[1][j] {
        assert t[j] == LowerChar(n[j]);
      }
    }
    ContainsAt(t, RecreationWords[1], 0);
  }

  /** The category depends on the letters only, not on their case. */
  lemma CategorizeIgnoresCase(name: string)
    ensures CategorizeBuilding(Lower(name)) == CategorizeBuilding(name)
  {
    LowerIdempotent(name);
  }

  /** The college keywords in the order of the source's dictionary. */
  const CollegeKeywords: seq<(string, string)> := [
    ("Pomona", "Pomona College"),
    ("CMC", "Claremont McKenna College"),
    ("Claremont McKenna", "Claremont McKenna College"),
    ("Scripps", "Scripps College"),
    ("Mudd", "Harvey Mudd College"),
    ("Harvey Mudd", "Harvey Mudd College"),
    ("Pitzer", "Pitzer College")
  ]

  const DefaultCollege: string := "Pomona College"

  predicate KeywordIn(name: string, entry: (string, string))
  {
    Contains(Lower(name), Lower(entry.0))
  }

  function KeywordMatcher(name: string): ((string, string)) -> bool
  {
    (entry: (string, string)) => KeywordIn(name, entry)
  }

  const Colleges: set<string> :=
    {"Pomona College", "Claremont McKenna College", "Scripps College", "Harvey Mudd College", "Pitzer College"}

  /** Each keyword names one of the five colleges. */
  lemma KeywordCollegeKnown(k: nat)
    requires k < |CollegeKeywords|
    ensures CollegeKeywords[k].1 in Colleges
  {
  }

  /** `guess_college`: the college of the first keyword, in table order,
      whose lower-cased form occurs in the lower-cased name; Pomona College
      when none does. Every guess is one of the five colleges. */
  function GuessCollege(name: string): (r: string)
    ensures r in Colleges
  {
    var f := FindFirst(CollegeKeywords, KeywordMatcher(name));
    if f.None? then DefaultCollege
    else
      KeywordCollegeKnown(f.value);
      CollegeKeywords[f.value].1
  }

  /** The first keyword in table order that the name holds decides. */
  lemma GuessCollegeFirst(name: string, k: nat)
    requires k < |CollegeKeywords| && KeywordIn(name, CollegeKeywords[k])
    requires forall j :: 0 <= j < k ==> !KeywordIn(name, CollegeKeywords[j])
    ensures GuessCollege(name) == CollegeKeywords[k].1
  {
    var p := KeywordMatcher(name);
    assert p(CollegeKeywords[k]);
    assert forall j :: 0 <= j < k ==> !p(CollegeKeywords[j]);
    FindFirstIs(CollegeKeywords, p, k);
  }

  /** A name holding no keyword is taken to be at Pomona College. */
  lemma GuessCollegeDefault(name: string)
    requires forall k :: 0 <= k < |CollegeKeywords| ==> !KeywordIn(name, CollegeKeywords[k])
    ensures GuessCollege(name) == DefaultCollege
  {
    assert forall k :: 0 <= k < |CollegeKeywords| ==> !KeywordMatcher(name)(CollegeKeywords[k]);
  }

  // --------------------------------------------------------------- elements

  /** A coordinate in units of 10^-7 degree, the precision OSM stores. */
  datatype Coord = Coord(lat: int, lon: int)

  /** A node carries its own position; a way may carry a computed centre. */
  datatype Geometry = NodeAt(lat: int, lon: int) | WayWith(center: Option<Coord>)

  /** One element of the Overpass answer; `tags` is `None` when the element
      has no tags. */
  datatype Element = Element(tags: Option<map<string, string>>, geometry: Geometry)

  datatype Building = Building(
    name: string,
    lat: int,
    lon: int,
    category: string,
    college: string,
    tags: map<string, string>)

  predicate Named(e: Element)
  {
    e.tags.Some? && "name" in e.tags.value
  }

  function NameOf(e: Element): string
    requires Named(e)
  {
    e.tags.value["name"]
  }

  /** Basement levels and parking are not buildings to import. */
  predicate Excluded(name: string)
  {
    Contains(Lower(name), "basement") || Contains(Lower(name), "parking")
  }

  function CoordsOf(e: Element): Option<Coord>
  {
    match e.geometry
    case NodeAt(lat, lon) => Some(Coord(lat, lon))
    case WayWith(c) => c
  }

  /** The query's box, 34.093..34.107 north and 117.714..117.704 west,
      bounds included. */
  predicate InBox(lat: int, lon: int)
  {
    340930000 <= lat <= 341070000 && -1177140000 <= lon <= -1177040000
  }

  /** A named element survives the filters. */
  predicate Accepted(e: Element)
    requires Named(e)
  {
    !Excluded(NameOf(e)) && CoordsOf(e).Some? && InBox(CoordsOf(e).value.lat, CoordsOf(e).value.lon)
  }

  function BuildingOf(e: Element): Building
    requires Named(e) && CoordsOf(e).Some?
  {
    var name, c := NameOf(e), CoordsOf(e).value;
    Building(name, c.lat, c.lon, CategorizeBuilding(name), GuessCollege(name), e.tags.value)
  }

  // ------------------------------------------------------------- the loop

  /** What the loop has built so far and the names it has seen. */
  datatype Progress = Progress(buildings: seq<Building>, seen: set<string>)

  /** One turn of the loop. The name is recorded before the basement,
      parking and coordinate checks. */
  function Step(p: Progress, e: Element): Progress
  {
    if !Named(e) then p
    else
      var name := NameOf(e);
      if name in p.seen then p
      else
        var seen := p.seen + {name};
        if Excluded(name) then Progress(p.buildings, seen)
        else match CoordsOf(e)
          case None => Progress(p.buildings, seen)
          case Some(c) =>
            if !InBox(c.lat, c.lon) then Progress(p.buildings, seen)
            else Progress(p.buildings + [BuildingOf(e)], seen)
  }

  /** The loop's state after the given elements. */
  function Scan(es: seq<Element>): Progress
  {
    if es == [] then Progress([], {}) else Step(Scan(es[..|es| - 1]), es[|es| - 1])
  }

  /** Scanning one more element is one more step. */
  lemma ScanPrefix(es: seq<Element>, i: nat)
    requires i < |es|
    ensures Scan(es[..i + 1]) == Step(Scan(es[..i]), es[i])
  {
    assert es[..i + 1][..i] == es[..i];
  }

  /** The processing loop over the Overpass elements. */
  method ProcessElements(elements: seq<Element>) returns (buildings: seq<Building>, seenNames: set<string>)
    ensures Progress(buildings, seenNames) == Scan(elements)
  {
    buildings := [];
    seenNames := {};
    for i := 0 to |elements|
      invariant Progress(buildings, seenNames) == Scan(elements[..i])
    {
      var element := elements[i];
      ScanPrefix(elements, i);
      ghost var next := Step(Progress(buildings, seenNames), element);
      if element.tags.None? || "name" !in element.tags.value {
        assert next == Progress(buildings, seenNames);
        continue;
      }
      var name := element.tags.value["name"];
      if name in seenNames {
        assert next == Progress(buildings, seenNames);
        continue;
      }
      seenNames := seenNames + {name};
      if Contains(Lower(name), "basement") || Contains(Lower(name), "parking") {
        assert next == Progress(buildings, seenNames);
        continue;
      }
      var tags := element.tags.value;
      var lat, lon;
      match element.geometry {
        case NodeAt(nlat, nlon) =>
          lat, lon := nlat, nlon;
        case WayWith(center) =>
          if center.None? {
            assert next == Progress(buildings, seenNames);
            continue;
          }
          lat, lon := center.value.lat, center.value.lon;
      }
      assert CoordsOf(element) == Some(Coord(lat, lon));
      if !InBox(lat, lon) {
        assert next == Progress(buildings, seenNames);
        continue;
      }
      var category := CategorizeBuilding(name);
      var collegeName := GuessCollege(name);
      assert BuildingOf(element) == Building(name, lat, lon, category, collegeName, tags);
      buildings := buildings + [Building(name, lat, lon, category, collegeName, tags)];
      assert next == Progress(buildings, seenNames);
    }
    assert elements[..|elements|] == elements;
  }

  // ------------------------------------------------ what the loop computes

  /** The names of the named elements. */
  function NamesOf(es: seq<Element>): set<string>
  {
    if es == [] then {}
    else NamesOf(es[..|es| - 1]) + (if Named(es[|es| - 1]) then {NameOf(es[|es| - 1])} else {})
  }

  /** Element `k` is the first element with its name. */
  predicate FirstOccurrence(es: seq<Element>, k: int)
  {
    0 <= k < |es| && Named(es[k])
    && forall j :: 0 <= j < k ==> !(Named(es[j]) && NameOf(es[j]) == NameOf(es[k]))
  }

  /** The last element `e` after `pre` gives a building. */
  predicate Yields(pre: seq<Element>, e: Element)
  {
    Named(e) && NameOf(e) !in NamesOf(pre) && Accepted(e)
  }

  /** Reference reading of the loop: an element yields a building exactly
      when it is named, its name was not seen on any earlier element
      (whether or not that one was kept), and it passes the filters. */
  function Reference(es: seq<Element>): seq<Building>
  {
    if es == [] then []
    else
      var pre, e := es[..|es| - 1], es[|es| - 1];
      Reference(pre) + (if Yields(pre, e) then [BuildingOf(e)] else [])
  }

  /** The seen set is the set of names met so far, and the buildings are
      those of the reference reading. */
  lemma {:induction false} ScanIsReference(es: seq<Element>)
    ensures Scan(es) == Progress(Reference(es), NamesOf(es))
    decreases |es|
  {
    if es != [] {
      ScanIsReference(es[..|es| - 1]);
    }
  }

  /** A name was seen exactly when some element carries it. */
  lemma {:induction false} NamesOfSpec(es: seq<Element>, n: string)
    ensures n in NamesOf(es) <==> exists k :: 0 <= k < |es| && Named(es[k]) && NameOf(es[k]) == n
    decreases |es|
  {
    if es != [] {
      var pre := es[..|es| - 1];
      NamesOfSpec(pre, n);
      if n in NamesOf(pre) {
        var k :| 0 <= k < |pre| && Named(pre[k]) && NameOf(pre[k]) == n;
        assert es[k] == pre[k];
      }
      if exists k :: 0 <= k < |es| && Named(es[k]) && NameOf(es[k]) == n {
        var k :| 0 <= k < |es| && Named(es[k]) && NameOf(es[k]) == n;
        if k < |pre| {
          assert pre[k] == es[k];
        }
      }
    }
  }

  /** Every building carries a name that was seen. */
  lemma {:induction false} ReferenceNamesSeen(es: seq<Element>)
    ensures forall i :: 0 <= i < |Reference(es)| ==> Reference(es)[i].name in NamesOf(es)
    decreases |es|
  {
    if es != [] {
      ReferenceNamesSeen(es[..|es| - 1]);
    }
  }

  predicate NamesDistinct(bs: seq<Building>)
  {
    forall i, j :: 0 <= i < j < |bs| ==> bs[i].name != bs[j].name
  }

  /** No two buildings share a name. */
  lemma {:induction false} ReferenceDistinct(es: seq<Element>)
    ensures NamesDistinct(Reference(es))
    decreases |es|
  {
    if es != [] {
      var pre, e := es[..|es| - 1], es[|es| - 1];
      ReferenceDistinct(pre);
      ReferenceNamesSeen(pre);
      if Yields(pre, e) {
        assert Reference(es) == Reference(pre) + [BuildingOf(e)];
      } else {
        assert Reference(es) == Reference(pre);
      }
    }
  }

  /** A kept building is neither a basement nor parking, lies in the box,
      and has the category and the college its name gives. */
  predicate Kept(b: Building)
  {
    !Excluded(b.name) && InBox(b.lat, b.lon)
    && b.category == CategorizeBuilding(b.name) && b.college == GuessCollege(b.name)
  }

  lemma {:induction false} ReferenceKept(es: seq<Element>)
    ensures forall i :: 0 <= i < |Reference(es)| ==> Kept(Reference(es)[i])
    decreases |es|
  {
    if es != [] {
      var pre, e := es[..|es| - 1], es[|es| - 1];
      ReferenceKept(pre);
      if Yields(pre, e) {
        var r := Reference(pre) + [BuildingOf(e)];
        assert Reference(es) == r;
        AcceptedKept(e);
        forall i | 0 <= i < |r| ensures Kept(r[i]) {
          if i < |Reference(pre)| {
            assert r[i] == Reference(pre)[i];
          }
        }
      } else {
        assert Reference(es) == Reference(pre);
      }
    }
  }

  lemma AcceptedKept(e: Element)
    requires Named(e) && Accepted(e)
    ensures Kept(BuildingOf(e))
  {
  }

  /** The first occurrences in a prefix are those of the whole list that lie
      in the prefix. */
  lemma FirstOccurrencePrefix(es: seq<Element>, k: int)
    requires es != []
    ensures FirstOccurrence(es[..|es| - 1], k) <==> k < |es| - 1 && FirstOccurrence(es, k)
  {
    var pre := es[..|es| - 1];
    if 0 <= k < |pre| {
      assert pre[k] == es[k];
      assert forall j :: 0 <= j < k ==> pre[j] == es[j];
    }
  }

  /** The last element is a first occurrence exactly when it is named and
      its name was not seen before. */
  lemma FirstOccurrenceLast(es: seq<Element>)
    requires es != []
    ensures FirstOccurrence(es, |es| - 1) <==> Named(es[|es| - 1]) && NameOf(es[|es| - 1]) !in NamesOf(es[..|es| - 1])
  {
    var pre, e := es[..|es| - 1], es[|es| - 1];
    if Named(e) {
      NamesOfSpec(pre, NameOf(e));
      assert forall j :: 0 <= j < |pre| ==> pre[j] == es[j];
    }
  }

  /** Each building comes from the first element carrying its name. */
  lemma {:induction false} ReferenceSound(es: seq<Element>, i: nat)
    requires i < |Reference(es)|
    ensures exists k :: FirstOccurrence(es, k) && Accepted(es[k]) && Reference(es)[i] == BuildingOf(es[k])
    decreases |es|
  {
    var pre, e := es[..|es| - 1], es[|es| - 1];
    if i < |Reference(pre)| {
      assert Reference(es)[i] == Reference(pre)[i];
      ReferenceSound(pre, i);
      var k :| FirstOccurrence(pre, k) && Accepted(pre[k]) && Reference(pre)[i] == BuildingOf(pre[k]);
      FirstOccurrencePrefix(es, k);
      assert pre[k] == es[k];
      assert FirstOccurrence(es, k) && Accepted(es[k]) && Reference(es)[i] == BuildingOf(es[k]);
    } else {
      var k := |pre|;
      assert Yields(pre, e) && Reference(es) == Reference(pre) + [BuildingOf(e)];
      FirstOccurrenceLast(es);
      assert es[k] == e;
      assert FirstOccurrence(es, k) && Accepted(es[k]) && Reference(es)[i] == BuildingOf(es[k]);
    }
  }

  /** Every first occurrence that passes the filters gives a building. */
  lemma {:induction false} ReferenceComplete(es: seq<Element>, k: int)
    requires FirstOccurrence(es, k) && Accepted(es[k])
    ensures BuildingOf(es[k]) in Reference(es)
    decreases |es|
  {
    var pre, e := es[..|es| - 1], es[|es| - 1];
    FirstOccurrencePrefix(es, k);
    if k < |pre| {
      ReferenceComplete(pre, k);
      assert pre[k] == es[k];
    } else {
      FirstOccurrenceLast(es);
      assert Reference(es) == Reference(pre) + [BuildingOf(e)];
    }
  }

  /** A repeated name is skipped even when its first element was dropped:
      the name is recorded before the filters. */
  lemma LaterDuplicateSkipped(first: Element, second: Element)
    requires Named(first) && Named(second) && NameOf(first) == NameOf(second)
    requires !Accepted(first)
    ensures Reference([first, second]) == []
  {
    assert [first, second][..1] == [first];
    assert [first][..0] == [];
    assert NamesOf([first]) == {NameOf(first)};
    assert Reference([first]) == [];
  }

  // ---------------------------------------------------------------- sorting

  /** The sort key (college, name), compared as Python compares tuples. */
  predicate KeyLe(a: Building, b: Building)
  {
    StrLt(a.college, b.college) || (a.college == b.college && StrLe(a.name, b.name))
  }

  lemma KeyLeTotal(a: Building, b: Building)
    ensures KeyLe(a, b) || KeyLe(b, a)
  {
    StrLeTotal(a.college, b.college);
    StrLeTotal(a.name, b.name);
  }

  /** Two buildings each at most the other share college and name. */
  lemma KeyLeAntisymmetric(a: Building, b: Building)
    requires KeyLe(a, b) && KeyLe(b, a)
    ensures a.college == b.college && a.name == b.name
  {
    if a.college != b.college {
      StrLeAntisymmetric(a.college, b.college);
      assert false;
    }
    StrLeAntisymmetric(a.name, b.name);
  }

  lemma KeyLeTransitive(a: Building, b: Building, c: Building)
    requires KeyLe(a, b) && KeyLe(b, c)
    ensures KeyLe(a, c)
  {
    if a.college == b.college && b.college == c.college {
      StrLeTransitive(a.name, b.name, c.name);
    } else {
      StrLeReflexive(b.college);
      StrLeTransitive(a.college, b.college, c.college);
      if a.college == c.college {
        StrLeAntisymmetric(a.college, b.college);
        assert false;
      }
    }
  }

  predicate SortedByKey(s: seq<Building>)
  {
    forall i, j :: 0 <= i < j < |s| ==> KeyLe(s[i], s[j])
  }

  /** Insertion of one building before the first one it does not follow. */
  function Insert(b: Building, s: seq<Building>): (r: seq<Building>)
    ensures multiset(r) == multiset(s) + multiset{b}
  {
    if s == [] then [b]
    else if KeyLe(b, s[0]) then [b] + s
    else
      assert s == [s[0]] + s[1..];
      [s[0]] + Insert(b, s[1..])
  }

  /** `x` is at most every element of `s`. */
  predicate AtMostAll(x: Building, s: seq<Building>)
  {
    forall j :: 0 <= j < |s| ==> KeyLe(x, s[j])
  }

  lemma {:induction false} InsertAtMostAll(x: Building, b: Building, s: seq<Building>)
    requires AtMostAll(x, s) && KeyLe(x, b)
    ensures AtMostAll(x, Insert(b, s))
  {
    if s != [] && !KeyLe(b, s[0]) {
      InsertAtMostAll(x, b, s[1..]);
    }
  }

  lemma {:induction false} InsertSorted(b: Building, s: seq<Building>)
    requires SortedByKey(s)
    ensures SortedByKey(Insert(b, s))
  {
    if s != [] {
      if KeyLe(b, s[0]) {
        forall j | 0 < j < |s| ensures KeyLe(b, s[j]) {
          KeyLeTransitive(b, s[0], s[j]);
        }
      } else {
        KeyLeTotal(b, s[0]);
        InsertSorted(b, s[1..]);
        InsertAtMostAll(s[0], b, s[1..]);
      }
    }
  }

  /** Every element of the insertion is the new building or one of `s`. */
  lemma InsertFrom(b: Building, s: seq<Building>, j: nat)
    requires j < |Insert(b, s)|
    ensures Insert(b, s)[j] == b || Insert(b, s)[j] in s
  {
    var r := Insert(b, s);
    assert r[j] in multiset(r);
    assert r[j] in multiset(s) + multiset{b};
  }

  lemma {:induction false} InsertDistinct(b: Building, s: seq<Building>)
    requires NamesDistinct(s) && forall j :: 0 <= j < |s| ==> s[j].name != b.name
    ensures NamesDistinct(Insert(b, s))
  {
    if s != [] && !KeyLe(b, s[0]) {
      InsertDistinct(b, s[1..]);
      var t := Insert(b, s[1..]);
      forall j | 0 <= j < |t| ensures s[0].name != t[j].name {
        InsertFrom(b, s[1..], j);
      }
    }
  }

  /** `buildings.sort(key=lambda x: (x['college'], x['name']))`: the
      buildings ordered by college, then name. */
  function SortBuildings(s: seq<Building>): (r: seq<Building>)
    ensures multiset(r) == multiset(s)
  {
    if s == [] then []
    else
      assert s == [s[0]] + s[1..];
      Insert(s[0], SortBuildings(s[1..]))
  }

  /** The sorted list is ordered by (college, name). */
  lemma {:induction false} SortBuildingsSorted(s: seq<Building>)
    ensures SortedByKey(SortBuildings(s))
  {
    if s != [] {
      SortBuildingsSorted(s[1..]);
      InsertSorted(s[0], SortBuildings(s[1..]));
    }
  }

  /** Distinct names stay distinct. */
  lemma {:induction false} SortBuildingsDistinct(s: seq<Building>)
    requires NamesDistinct(s)
    ensures NamesDistinct(SortBuildings(s))
  {
    if s != [] {
      SortBuildingsDistinct(s[1..]);
      var t := SortBuildings(s[1..]);
      forall j | 0 <= j < |t| ensures t[j].name != s[0].name {
        assert t[j] in multiset(s[1..]);
        var k :| 0 <= k < |s[1..]| && s[1..][k] == t[j];
        assert s[k + 1] == t[j];
      }
      InsertDistinct(s[0], t);
    }
  }

  /** With distinct names, as the loop produces, the sorted list is strictly
      increasing in the key, so no two buildings tie and the order does not
      depend on the sort's stability. */
  lemma SortedStrictly(s: seq<Building>)
    requires NamesDistinct(s)
    ensures var r := SortBuildings(s);
            forall i, j :: 0 <= i < j < |r| ==> KeyLe(r[i], r[j]) && !KeyLe(r[j], r[i])
  {
    var r := SortBuildings(s);
    SortBuildingsSorted(s);
    SortBuildingsDistinct(s);
    forall i, j | 0 <= i < j < |r| ensures !KeyLe(r[j], r[i]) {
      if KeyLe(r[j], r[i]) {
        KeyLeAntisymmetric(r[i], r[j]);
        assert false;
      }
    }
  }

  // --------------------------------------------------------------- grouping

  function HasCategory(c: string): Building -> bool
  {
    (b: Building) => b.category == c
  }

  /** `m` maps each category occurring in `s`, and no other, to the
      buildings of that category in list order. */
  ghost predicate Grouped(s: seq<Building>, m: map<string, seq<Building>>)
  {
    (forall c :: c in m <==> exists k :: 0 <= k < |s| && s[k].category == c)
    && forall c :: c in m ==> m[c] == Filter(s, HasCategory(c))
  }

  lemma GroupedStep(s: seq<Building>, b: Building, m: map<string, seq<Building>>)
    requires Grouped(s, m)
    ensures Grouped(s + [b], m[b.category := (if b.category in m then m[b.category] else []) + [b]])
  {
    var t := s + [b];
    var m' := m[b.category := (if b.category in m then m[b.category] else []) + [b]];
    forall c ensures c in m' <==> exists k :: 0 <= k < |t| && t[k].category == c {
      if c == b.category {
        assert t[|s|].category == c;
      }
      if c in m {
        var k :| 0 <= k < |s| && s[k].category == c;
        assert t[k] == s[k];
      }
      if exists k :: 0 <= k < |t| && t[k].category == c {
        var k :| 0 <= k < |t| && t[k].category == c;
        if k < |s| {
          assert s[k] == t[k];
        }
      }
    }
    forall c | c in m' ensures m'[c] == Filter(t, HasCategory(c)) {
      FilterSnoc(s, b, HasCategory(c));
      if c !in m {
        FilterKeepsNone(s, HasCategory(c));
      }
    }
  }

  /** The loop's two updates (an empty group for a new category, then the
      append) keep the grouping. */
  lemma GroupedAppend(s: seq<Building>, b: Building, m: map<string, seq<Building>>)
    requires Grouped(s, m)
    ensures var m1 := if b.category in m then m else m[b.category := []];
            Grouped(s + [b], m1[b.category := m1[b.category] + [b]])
  {
    var c := b.category;
    GroupedStep(s, b, m);
    if c !in m {
      UpdateTwice(m, c, [], [] + [b]);
    }
  }

  /** A second update of the same key replaces the first. */
  lemma UpdateTwice<K, V>(m: map<K, V>, k: K, x: V, y: V)
    ensures m[k := x][k := y] == m[k := y]
  {
  }

  /** The preview's grouping: the list of each category's buildings, in
      list order. */
  method GroupByCategory(buildings: seq<Building>) returns (categories: map<string, seq<Building>>)
    ensures Grouped(buildings, categories)
  {
    categories := map[];
    for i := 0 to |buildings|
      invariant Grouped(buildings[..i], categories)
    {
      var building := buildings[i];
      var cat := building.category;
      ghost var before := categories;
      if cat !in categories {
        categories := categories[cat := []];
      }
      categories := categories[cat := categories[cat] + [building]];
      GroupedAppend(buildings[..i], building, before);
      assert buildings[..i + 1] == buildings[..i] + [building];
    }
    assert buildings[..|buildings|] == buildings;
  }

  /** Every building is in the group of its own category and in no
      other. */
  lemma GroupsPartition(buildings: seq<Building>, categories: map<string, seq<Building>>, i: nat)
    requires Grouped(buildings, categories) && i < |buildings|
    ensures buildings[i].category in categories && buildings[i] in categories[buildings[i].category]
    ensures forall c :: c in categories && c != buildings[i].category ==> buildings[i] !in categories[c]
  {
    var c0 := buildings[i].category;
    assert HasCategory(c0)(buildings[i]);
  }

  /** The groups of a sorted list are sorted. */
  lemma GroupsSorted(buildings: seq<Building>, categories: map<string, seq<Building>>, c: string)
    requires Grouped(buildings, categories) && SortedByKey(buildings) && c in categories
    ensures SortedByKey(categories[c])
  {
    FilterSorted(buildings, HasCategory(c));
  }

  lemma {:induction false} FilterSorted(s: seq<Building>, p: Building -> bool)
    requires SortedByKey(s)
    ensures SortedByKey(Filter(s, p))
  {
    if s != [] {
      FilterSorted(s[1..], p);
      var t := Filter(s[1..], p);
      assert AtMostAll(s[0], s[1..]);
      forall j | 0 <= j < |t| ensures KeyLe(s[0], t[j]) {
        assert t[j] in s[1..];
      }
    }
  }

  /** The processing loop followed by the sort. */
  method ImportBuildings(elements: seq<Element>) returns (buildings: seq<Building>)
    ensures buildings == SortBuildings(Reference(elements))
    ensures SortedByKey(buildings) && NamesDistinct(buildings)
    ensures multiset(buildings) == multiset(Reference(elements))
  {
    var seenNames;
    buildings, seenNames := ProcessElements(elements);
    ScanIsReference(elements);
    ReferenceDistinct(elements);
    SortBuildingsSorted(buildings);
    SortBuildingsDistinct(buildings);
    buildings := SortBuildings(buildings);
  }
}
