# Campus map client and course scrapers — a Dafny model

This project models the self-contained logic of a campus-navigation
application for the five Claremont colleges: the course scrapers of its
back end, the OpenStreetMap building import, and the state and list logic
of its React pages (course browser, post boards, calendar, personal
schedule, the desktop and mobile maps, the login, registration and
password-reset forms and the top-level shell). Network answers, the map
library and browser storage are abstracted into inputs and plain state.

One Dafny module per source file, plus two shared modules:

| file | module | models |
|---|---|---|
| common.dfy | Common | `Option`, `filter`, `find`, `some`, leftmost regex search, `a \|\| b` on text |
| strings.dfy | Strings | whitespace split/strip/join, substring search, lower-casing, decimal text |
| scrape_courses.dfy | ScrapeCourses | `Course.extract_*`, `to_dict`, the row loop of `scrape_courses_from_html` |
| base_scraper.dfy | BaseScraper | `clean_text`, `extract_course_number`, `parse_time_slot`, `validate_course_data` |
| pomona_scraper.dfy | PomonaScraper | `_get_department_name`, the text logic of `_parse_course_element` |
| osm_import.dfy | OsmImport | `categorize_building`, `guess_college`, the processing loop, sort, grouping |
| calendar.dfy | Calendar | `parseEventTime`, `formatEventTime`, `getEventsForDate`, hour rows and labels |
| courses.dfy | Courses | `formatDays`, enrolment lookup, course filter, query URL, add/remove/view guards |
| post_board.dfy | PostBoard | `getTimeAgo`, the post split, submit guard and reset, fun facts (CourseDetail and LocationDetail share these) |
| schedule.dfy | Schedule | the schedule page's add, delete, grid lookup and student-only storage |
| home_map.dfy | HomeMap | `filteredPOIs`, marker colours, `updateMapMarkers`, map creation and clean-up |
| mobile_app.dfy | MobileApp | map effect and clean-up, circle markers, colours, selection, tabs, starred counts |
| login.dfy | Login | `handleSubmit` of the login form |
| register.dfy | Register | password checks, request body and outcome of `handleSubmit` |
| reset_password.dfy | ResetPassword | `verifyToken`, the screen choice, the two halves of `handleSubmit` |
| app.dfy | App | the view state machine over `currentUser` and `showRegister` |

Representation choices:

- Floating-point values are integers: OSM coordinates in units of 1e-7
  degree, page coordinates in units of 1e-4 degree, and a parsed event
  time as whole hours and minutes. `Math.floor(hours + minutes / 60)`
  becomes `hours + minutes / 60` on naturals, which is exact.
- Regular expressions are "match at position i" functions and a
  left-to-right search over positions. Each greedy quantifier in these
  patterns is followed by a character class disjoint from it, so the match
  at a position is unique.
- Whitespace is ASCII whitespace, digits are '0' to '9' and lower-casing
  is ASCII lower-casing. The lines on Strings.IsSpace, Strings.IsDigit
  and Strings.Lower under "## Left out" say what this loses.
- Network answers are datatypes: an answer with its status flag and the
  body fields the page reads, or a network failure. Ids from `Date.now()`,
  the current time and the date of a calendar column are parameters.
- A React state cell becomes a class field. An effect and its clean-up
  become methods.

The two map pages differ in two respects:

- home.jsx gives an unknown category the campus colour `#667eea` and draws
  a marker for every POI without checking its coordinates.
- MobileApp.jsx skips POIs without coordinates and gives an unknown
  category its "other" colour.

## Model

| member | source | states |
|---|---|---|
| ScrapeCourses.ExtractDepartment | backend/scrape_courses.py:29-32 | 'UNKNOWN' when the code does not start with a capital letter, otherwise the maximal leading run of capitals |
| ScrapeCourses.ExtractDepartmentOfCode | backend/scrape_courses.py:29-32 | capitals followed by a non-capital give exactly those capitals ("AFRI010A" gives "AFRI") |
| ScrapeCourses.ExtractLocation | backend/scrape_courses.py:34-51 | (None, None) for empty meetings or no '/'; otherwise the building is the 2nd location field and the room the 3rd or None, and fewer than two fields give (None, None); each field is stripped and free of ',' and '/' |
| ScrapeCourses.LocationFields | backend/scrape_courses.py:40-44 | every field is stripped and free of ',' and '/'; there is at least one |
| ScrapeCourses.LocationFieldsOf | backend/scrape_courses.py:40-44 | for every text before the last '/', the fields are the stripped comma fields of the text after it, once stripped and with `&nbsp;` turned into spaces |
| ScrapeCourses.ExtractLocationOfText | backend/scrape_courses.py:34-51 | for every meetings text with a '/', building and room are the 2nd and 3rd comma fields after the last '/', and (None, None) with fewer than two |
| ScrapeCourses.ExtractLocationOfMeetings | backend/scrape_courses.py:40-49 | "… / PO Campus, Lincoln, 1135" gives building "Lincoln" and room "1135" |
| ScrapeCourses.ExtractTime | backend/scrape_courses.py:53-75 | (None, None) for empty meetings or no '/'; otherwise days and time are LeadingDays and TimeRange of the stripped text before the first '/' of the cleaned text |
| ScrapeCourses.ExtractTimeOfText | backend/scrape_courses.py:58-75 | for every meetings text whose cleaned form is pre + '/' + post with no '/' in pre, days and time are read from the stripped pre alone |
| ScrapeCourses.LeadingDays | backend/scrape_courses.py:67-69 | days are the leading capitals only when whitespace follows them |
| ScrapeCourses.TimeRange | backend/scrape_courses.py:71-73 | the leftmost `\d+:\d+[AP]M-\d+:\d+[AP]M` match, None exactly when no position matches |
| ScrapeCourses.ExtractTimeOfMeetings | backend/scrape_courses.py:53-75 | "MW 11:00AM-12:15PM / …" gives days "MW" and that time range |
| ScrapeCourses.ExtractCollege | backend/scrape_courses.py:77-92 | one of PO, CMC, SC, HMC, PZ; 'PO' for empty meetings |
| ScrapeCourses.ExtractCollegeByTable | backend/scrape_courses.py:82-92 | the if-chain equals the first match in the priority table PO, CMC, SC/Scripps, HMC/Mudd, PZ/Pitzer, default PO |
| ScrapeCourses.NewCourseOfEmpty | backend/scrape_courses.py:13-27 | a dictionary with none of the keys gives '' everywhere, department 'UNKNOWN', no location or time, and college 'PO' |
| ScrapeCourses.ToDict | backend/scrape_courses.py:94-110 | the dictionary has exactly the 14 keys |
| ScrapeCourses.ToDictRoundTrip | backend/scrape_courses.py:94-110 | each key holds its own attribute: reading the dictionary back gives the course |
| ScrapeCourses.ToDictInjective | backend/scrape_courses.py:94-110 | different courses give different dictionaries |
| ScrapeCourses.SplitCourseSection | backend/scrape_courses.py:157-160 | the code is the stripped text before the first ' - '; the section is the stripped text from there to the next ' - ' or the end, and '01' when there is no separator |
| ScrapeCourses.SplitCourseSectionOfCell | backend/scrape_courses.py:157-160 | "AFRI010A AF - 01" gives ("AFRI010A AF", "01") |
| ScrapeCourses.RowCourseFields | backend/scrape_courses.py:149-171 | each cell goes to its own attribute and the code and section come from the first cell |
| ScrapeCourses.ScrapedIsFilter | backend/scrape_courses.py:142-146 | the courses are those of the rows with at least six cells, in row order |
| ScrapeCourses.ScrapeRows | backend/scrape_courses.py:142-174 | the loop appends one course per accepted row, in input order |
| BaseScraper.CleanText | backend/scrapers/base_scraper.py:45-49 | "" for missing or empty text; the result is single-spaced and keeps the words of the stripped text |
| BaseScraper.CleanTextIdempotent | backend/scrapers/base_scraper.py:45-49 | cleaning twice equals cleaning once |
| BaseScraper.JoinWordsSingleSpaced | backend/scrapers/base_scraper.py:49 | words joined by one space have no leading, trailing or repeated whitespace |
| BaseScraper.ExtractCourseNumber | backend/scrapers/base_scraper.py:51-56 | the second whitespace token when there are at least two, else the input unchanged |
| BaseScraper.ExtractCourseNumberOfPair | backend/scrapers/base_scraper.py:51-56 | "CSCI 101" gives "101" |
| BaseScraper.ParseTimeSlot | backend/scrapers/base_scraper.py:58-82 | None exactly for empty input; a slot exactly when there are two tokens and the second splits at '-' into exactly two pieces, with the days the first token and start and end the stripped pieces; otherwise raw, holding the input |
| BaseScraper.ParseNoDashIsRaw | backend/scrapers/base_scraper.py:70-78 | a second token without '-' comes back raw |
| BaseScraper.ParseFormattedTimeSlot | backend/scrapers/base_scraper.py:65-76 | "MWF 9:00-10:15" parses back to its days, start and end |
| BaseScraper.ParseSingleTokenIsRaw | backend/scrapers/base_scraper.py:78 | a single token comes back raw |
| BaseScraper.ParseSeveralDashesIsRaw | backend/scrapers/base_scraper.py:70-82 | a second token with more than one '-' fails to unpack and comes back raw |
| BaseScraper.ValidateCourseData | backend/scrapers/base_scraper.py:84-93 | true iff title, course_number and department_code are all present and non-empty |
| PomonaScraper.DepartmentName | backend/scrapers/pomona_scraper.py:121-136 | the listed name for the ten codes, any other code unchanged |
| PomonaScraper.DepartmentNameListed | backend/scrapers/pomona_scraper.py:123-136 | a code has a name of its own exactly when it is one of the ten |
| PomonaScraper.DepartmentNameInjective | backend/scrapers/pomona_scraper.py:123-136 | distinct listed codes get distinct names |
| PomonaScraper.CourseCode | backend/scrapers/pomona_scraper.py:70-76 | the groups of the leftmost `([A-Z]{2,4})\s*(\d+[A-Z]*)` match; None exactly when no position matches |
| PomonaScraper.CourseCodeOfTitle | backend/scrapers/pomona_scraper.py:70-76 | "CSCI 101: Intro to CS" gives ("CSCI", "101") |
| PomonaScraper.FirstNumber | backend/scrapers/pomona_scraper.py:101-103 | the value of the first digit run, None exactly when there is no digit |
| PomonaScraper.Credits | backend/scrapers/pomona_scraper.py:96-103 | 1 without a credits element or digits, otherwise the first number |
| PomonaScraper.CreditsOfNumeral | backend/scrapers/pomona_scraper.py:96-103 | "4 credits" gives 4 |
| PomonaScraper.RequiredFieldsPresent | backend/scrapers/pomona_scraper.py:105-115 | a parsed record passes the base scraper's validation |
| PomonaScraper.ParseCourseElement | backend/scrapers/pomona_scraper.py:60-115 | None without a title or a code match; at most one time slot, only for non-empty time text; semester 'Fall 2024'; department name from the table |
| OsmImport.CategorizeBuilding | backend/import_osm_buildings.py:34-44 | case-insensitive keywords: dining, then recreation, then academic, else 'other' |
| OsmImport.CategorizeByTable | backend/import_osm_buildings.py:34-44 | the if-chain equals the first matching row of the priority table |
| OsmImport.CategorizeIgnoresCase | backend/import_osm_buildings.py:35 | the category does not depend on letter case |
| OsmImport.FrankDiningHall | backend/import_osm_buildings.py:37 | "Frank Dining Hall" is dining |
| OsmImport.RainsAthleticCenter | backend/import_osm_buildings.py:39 | "Rains Athletic Center" is recreation |
| OsmImport.GuessCollege | backend/import_osm_buildings.py:46-51 | every guess is one of the five colleges |
| OsmImport.GuessCollegeFirst | backend/import_osm_buildings.py:46-51 | the first keyword in table order whose lower-cased form the lower-cased name contains gives the college |
| OsmImport.GuessCollegeDefault | backend/import_osm_buildings.py:46-51 | a name holding no keyword gives 'Pomona College' |
| OsmImport.ProcessElements | backend/import_osm_buildings.py:54-98 | the loop's buildings and seen_names equal those of the step function |
| OsmImport.ScanIsReference | backend/import_osm_buildings.py:57-98 | seen_names is the set of all names met; the buildings are the accepted first occurrences |
| OsmImport.NamesOfSpec | backend/import_osm_buildings.py:63-66 | a name is seen exactly when some named element carries it |
| OsmImport.ReferenceDistinct | backend/import_osm_buildings.py:63-66 | each name is processed at most once |
| OsmImport.ReferenceKept | backend/import_osm_buildings.py:69-86 | no output name contains basement or parking in any case, and every building lies in the inclusive box |
| OsmImport.ReferenceSound | backend/import_osm_buildings.py:57-98 | every building comes from the first element with its name |
| OsmImport.ReferenceComplete | backend/import_osm_buildings.py:57-98 | every accepted first occurrence yields a building |
| OsmImport.LaterDuplicateSkipped | backend/import_osm_buildings.py:63-70 | a later duplicate is skipped even when the first occurrence was dropped |
| OsmImport.SortBuildings | backend/import_osm_buildings.py:101 | the sort is a permutation |
| OsmImport.SortBuildingsSorted | backend/import_osm_buildings.py:101 | the result is ordered by (college, name) |
| OsmImport.GroupByCategory | backend/import_osm_buildings.py:106-111 | each category maps to the order-preserving list of its buildings |
| OsmImport.GroupsPartition | backend/import_osm_buildings.py:106-111 | each building is in its own category's group and in no other |
| OsmImport.GroupsSorted | backend/import_osm_buildings.py:101-111 | each group of the sorted list is sorted |
| OsmImport.ImportBuildings | backend/import_osm_buildings.py:54-101 | the output is the sorted reference list: sorted, distinct names, a permutation |
| Calendar.EventTimeOf | frontend/pages/Calendar.jsx:61-74 | null for empty text or no `h:mm AM/PM` match; otherwise the hour by the clock rule and the minutes |
| Calendar.ParseEventTime | frontend/pages/Calendar.jsx:61-74 | the step-by-step hour update computes that result |
| Calendar.Hour24 | frontend/pages/Calendar.jsx:70-71 | for hours 1–12 the result is below 24, agrees modulo 12 and is at least 12 exactly for PM |
| Calendar.Hour24Unique | frontend/pages/Calendar.jsx:70-71 | those facts fix the hour |
| Calendar.PeriodUpper | frontend/pages/Calendar.jsx:63-68 | a case-insensitive period reads as AM or PM once upper-cased |
| Calendar.EventTimeOfText | frontend/pages/Calendar.jsx:61-74 | a time at the start of a text is read with any spacing and any case |
| Calendar.WholeHourInDay | frontend/pages/Calendar.jsx:66-73 | for hours 1–12 and minutes below 60 the whole-hour part is the 24-hour clock hour, below 24 |
| Calendar.FormatEventTime | frontend/pages/Calendar.jsx:76-81 | "" for empty, the input when there is no match, otherwise hour, ':', minutes, one space and the period as written |
| Calendar.FormatKeepsEventTime | frontend/pages/Calendar.jsx:61-81 | formatting keeps the time the calendar reads |
| Calendar.FormatEventTimeIdempotent | frontend/pages/Calendar.jsx:76-81 | formatting twice equals formatting once |
| Calendar.HourLabelSpec | frontend/pages/Calendar.jsx:141 | 0 gives "12 AM", 1–11 "h AM", 12 "12 PM", 13–23 "(h−12) PM" |
| Calendar.HourLabelRoundTrip | frontend/pages/Calendar.jsx:141 | reading a label back with the clock rule gives the row's hour |
| Calendar.ApprovedEvents | frontend/pages/Calendar.jsx:21 | only approved events are kept |
| Calendar.EventStars | frontend/pages/Calendar.jsx:31 | only starred items of type 'event' are kept |
| Calendar.EventsForDate | frontend/pages/Calendar.jsx:51-59 | exactly the events dated that day that carry a star; undated events never |
| Calendar.EventsInHour | frontend/pages/Calendar.jsx:145-148 | an event is in an hour row iff its parsed whole hour is that hour |
| Calendar.EventShownOnce | frontend/pages/Calendar.jsx:145-148 | an event with a well-formed time appears in exactly one hour row |
| Courses.FormatDays | frontend/pages/Courses.jsx:123-131 | 'TBA' for missing or empty days, otherwise the letter expansion, trimmed |
| Courses.ReplaceDaysIsExpand | frontend/pages/Courses.jsx:125-129 | the five global replacements equal a letter-by-letter expansion |
| Courses.FormatDayLetters | frontend/pages/Courses.jsx:123-131 | weekday letters give their day names joined by single spaces ("MWF" gives "Mon Wed Fri") |
| Courses.IsEnrolledMembership | frontend/pages/Courses.jsx:63-65 | enrolled exactly when a row holding that course id is in the list; a row without a course never counts |
| Courses.EnrolledAfterAdd | frontend/pages/Courses.jsx:63-65 | a new row for a course enrols the user in it and changes no other course's enrolment |
| Courses.GetUserCourseId | frontend/pages/Courses.jsx:118-121 | null iff not enrolled; otherwise the id of the first row carrying the course |
| Courses.FilteredCourses | frontend/pages/Courses.jsx:133-135 | every course with the toggle off; with it on, the enrolled ones |
| Courses.FilteredCoursesOrder | frontend/pages/Courses.jsx:133-135 | the filter preserves order |
| Courses.QueryPieces | frontend/pages/Courses.jsx:37-40 | college=, department=, search= each appear iff non-empty, in that order, each followed by '&' |
| Courses.BuildCoursesUrl | frontend/pages/Courses.jsx:37-40 | the accumulated URL is the base, "/courses?" and that query |
| Courses.HandleAddCourse | frontend/pages/Courses.jsx:67-91 | a guest is alerted and no request is made; a refetch and the '✅ Course added to your schedule!' alert follow only an accepted add; a refusal is silent; a network failure alerts 'Failed to add course' |
| Courses.HandleRemoveCourse | frontend/pages/Courses.jsx:93-107 | the request is always made; a refetch follows only an accepted removal |
| Courses.HandleViewOnMap | frontend/pages/Courses.jsx:109-116 | a course without a location alerts and does not reach the map |
| PostBoard.ElapsedSeconds | frontend/pages/CourseDetail.jsx:71 | the seconds between the two instants, rounded down |
| PostBoard.Bucket | frontend/pages/CourseDetail.jsx:73-76 | seconds below 60, floor minutes below 3600, floor hours below 86400, floor days otherwise |
| PostBoard.TimeAgo | frontend/pages/LocationDetail.jsx:64-73 | the bucket's count followed by its unit suffix |
| PostBoard.BucketMonotone | frontend/pages/CourseDetail.jsx:73-76 | an older post never shows a smaller unit or a smaller count of the same unit |
| PostBoard.BucketBoundaries | frontend/pages/CourseDetail.jsx:73-76 | 59 → 59 s, 60 → 1 m, 3600 → 1 h, 86400 → 1 d |
| PostBoard.OneMinuteAgo | frontend/pages/CourseDetail.jsx:68-77 | a post exactly a minute old reads "1m ago" |
| PostBoard.PostsOfType | frontend/pages/CourseDetail.jsx:89-90 | exactly the posts of the given type ("temporary", "permanent"), in server order |
| PostBoard.SplitDisjoint | frontend/pages/CourseDetail.jsx:89-90 | no post is in both lists, and a post of any other type is in neither |
| PostBoard.SplitKeepsOrder | frontend/pages/CourseDetail.jsx:89-90 | both lists preserve order |
| PostBoard.SplitCount | frontend/pages/LocationDetail.jsx:76-77 | together at most all posts, and all iff every post has one of the two types |
| PostBoard.EmptyBoardIff | frontend/pages/LocationDetail.jsx:204 | the empty message shows iff no post is temporary or permanent |
| PostBoard.FunFacts | frontend/pages/LocationDetail.jsx:75 | the empty list when fun_facts is absent or empty |
| PostBoard.SubmitPost | frontend/pages/CourseDetail.jsx:31-66 | a guest gets the guest alert and makes no request; success clears the content and hides the form, refetches only temporary posts and alerts "posted" for a temporary post and "submitted for admin approval" otherwise, in the board's own words; a refused post alerts nothing; a network failure alerts the retry message |
| PostBoard.AcceptedAlertTellsType | frontend/pages/LocationDetail.jsx:48-54 | on either board the alert after an accepted post tells a temporary post from one awaiting approval |
| Schedule.Without | frontend/pages/Schedule.jsx:61-63 | delete removes every entry with the id and keeps the rest |
| Schedule.WithoutAbsent | frontend/pages/Schedule.jsx:61-63 | deleting an absent id changes nothing |
| Schedule.WithoutAppend | frontend/pages/Schedule.jsx:61-63 | delete keeps the order of the remaining entries |
| Schedule.DeleteUndoesAdd | frontend/pages/Schedule.jsx:38-63 | deleting a freshly added id restores the schedule |
| Schedule.CellAt | frontend/pages/Schedule.jsx:99-102 | the cell shows the first entry with that day and time |
| Schedule.LaterInSlotHidden | frontend/pages/Schedule.jsx:99-102 | a later entry in an occupied slot is not shown |
| Schedule.Grid | frontend/pages/Schedule.jsx:4-102 | the grid has 6 time slots by 5 days |
| Schedule.SchedulePage.constructor | frontend/pages/Schedule.jsx:20-36 | only a student's schedule is loaded; the form starts at its defaults |
| Schedule.SchedulePage.EditForm | frontend/pages/Schedule.jsx:136-174 | a form field edit replaces the form data and leaves the schedule, the form's visibility and the storage alone |
| Schedule.SchedulePage.OpenForm | frontend/pages/Schedule.jsx:78 | the add button shows the form and changes nothing else |
| Schedule.SchedulePage.CloseForm | frontend/pages/Schedule.jsx:126-183 | Cancel and a click on the overlay hide the form and keep the typed data, the schedule and the storage |
| Schedule.SchedulePage.AddClass | frontend/pages/Schedule.jsx:38-59 | appends one entry at the end; saves only for students; resets and closes the form |
| Schedule.SchedulePage.DeleteClass | frontend/pages/Schedule.jsx:61-68 | the schedule loses the id; saves only for students |
| HomeMap.FilteredPois | frontend/pages/home.jsx:205-209 | a POI passes iff the category is 'all' or equal, and the lower-cased name contains the lower-cased term |
| HomeMap.FilterAllEmpty | frontend/pages/home.jsx:205-209 | 'all' with an empty term keeps every POI |
| HomeMap.FilterKeepsOrder | frontend/pages/home.jsx:205-209 | filtering preserves order |
| HomeMap.SearchIgnoresCase | frontend/pages/home.jsx:207 | the search ignores letter case |
| HomeMap.ColorOf | frontend/pages/home.jsx:152-162 | the table's colour, and '#667eea' for a category outside the table (see "## Left out" for names of Object.prototype members) |
| HomeMap.MarkersOf | frontend/pages/home.jsx:161-190 | one marker per POI, in order |
| HomeMap.MapView.constructor | frontend/pages/home.jsx:5-10 | no map and no markers yet, category "all", an empty search, and the POI list the first effect sets |
| HomeMap.MapView.UpdateMapMarkers | frontend/pages/home.jsx:142-191 | nothing without a map; otherwise the marker list becomes exactly one marker per POI |
| HomeMap.MapView.InitMap | frontend/pages/home.jsx:116-127 | the map is created only when none exists and the container is present |
| HomeMap.MapView.Cleanup | frontend/pages/home.jsx:133-137 | the map is removed and the reference reset |
| HomeMap.MapView.SelectCategory | frontend/pages/home.jsx:194-203 | the category changes; with a map the markers become exactly those of the filtered POIs, otherwise they are kept |
| HomeMap.MapView.Search | frontend/pages/home.jsx:194-203 | the search term changes; with a map the markers become exactly those of the filtered POIs, otherwise they are kept |
| HomeMap.RefreshTwice | frontend/pages/home.jsx:145-149 | refreshing twice leaves one marker per POI |
| MobileApp.FillColor | frontend/pages/MobileApp.jsx:57-66 | the table's colour, and the 'other' colour for a category outside the table (see "## Left out" for names of Object.prototype members) |
| MobileApp.MarkersArePlaceablePois | frontend/pages/MobileApp.jsx:54-70 | the markers correspond one to one, in order, to the POIs with truthy lat and lng |
| MobileApp.UnplaceableAddsNothing | frontend/pages/MobileApp.jsx:55 | a POI with a missing or zero coordinate adds no marker |
| MobileApp.MobilePage.constructor | frontend/pages/MobileApp.jsx:22-33 | the home tab, no selection, no open sheet, no user position, no map or markers, and the initial view |
| MobileApp.MobilePage.InitMap | frontend/pages/MobileApp.jsx:36-76 | the map is built only on the map tab with a container, no instance and some POIs |
| MobileApp.MobilePage.Cleanup | frontend/pages/MobileApp.jsx:78-83 | the instance is removed and the reference set to null |
| MobileApp.MobilePage.SwitchTab | frontend/pages/MobileApp.jsx:291-321 | a new tab tears the map down and reruns the effect: a map with the placeable markers and the initial view exactly on the map tab with some POIs, the view kept otherwise; the same tab changes nothing |
| MobileApp.MobilePage.ClickMarker | frontend/pages/MobileApp.jsx:72-74 | a marker click selects its POI |
| MobileApp.MobilePage.ClosePopup | frontend/pages/MobileApp.jsx:214-216 | the close button clears the selection |
| MobileApp.MobilePage.HandleLocationClick | frontend/pages/MobileApp.jsx:107-110 | the location is selected and its detail sheet opens (the handler is defined but no element calls it) |
| MobileApp.MobilePage.SeeDetails | frontend/pages/MobileApp.jsx:222-227 | the popup's button opens the detail sheet and touches nothing else |
| MobileApp.MobilePage.SetUserLocation | frontend/pages/MobileApp.jsx:87-99 | the geolocation answer becomes the user's position |
| MobileApp.MobilePage.OpenCourses | frontend/pages/MobileApp.jsx:145 | "Find Classes" opens the course browser |
| MobileApp.MobilePage.CenterOnUser | frontend/pages/MobileApp.jsx:101-105 | a no-op unless both a position and a map exist; otherwise the view requested of the map is the user's position at zoom 17 |
| MobileApp.MobilePage.ViewOnMapFromCourses | frontend/pages/MobileApp.jsx:331-335 | sets the selection, closes Courses and switches to the map tab; from another tab the map is rebuilt as SwitchTab states, and on the map tab already the map, markers and view are kept |
| MobileApp.MapTabTwice | frontend/pages/MobileApp.jsx:36-84 | leaving and re-entering the map tab leaves one marker per placeable POI |
| MobileApp.StarredCount | frontend/pages/MobileApp.jsx:271-275 | the number of positions whose item has the type (events, locations): at most the total, and 0 iff no item has that type |
| MobileApp.StarredCountsSum | frontend/pages/MobileApp.jsx:271-275 | the two counts sum to at most the total, and to the total iff every item is an event or a location |
| Login.HandleSubmit | frontend/pages/Login.jsx:10-45 | a guest logs in as Guest without a request; otherwise login iff ok, success and matching role; the three error texts |
| Login.WrongRoleRejected | frontend/pages/Login.jsx:33-37 | a role mismatch gives "This account is not an {role} account" and no login |
| Register.PasswordError | frontend/pages/Register.jsx:29-37 | no error iff the passwords match and have at least 6 characters; mismatch is reported first |
| Register.ShortMismatchReportsMismatch | frontend/pages/Register.jsx:29-37 | a short mismatched password reports the mismatch |
| Register.HandleSubmit | frontend/pages/Register.jsx:24-66 | a failed check sends nothing; the body is the form without confirmPassword; data.error or 'Registration failed' on refusal |
| Register.BodyIgnoresConfirmation | frontend/pages/Register.jsx:45-51 | the request body does not depend on the confirmation field |
| Register.RefusalShowsError | frontend/pages/Register.jsx:59-60 | a refusal never leaves the error empty |
| ResetPassword.ResetPage.constructor | frontend/pages/ResetPassword.jsx:5-13 | every text field empty, not loading, no valid token yet, and verifying from the start |
| ResetPassword.ResetPage.EditPasswords | frontend/pages/ResetPassword.jsx:177-190 | the two password inputs set exactly the two fields |
| ResetPassword.ResetPage.VerifyToken | frontend/pages/ResetPassword.jsx:20-39 | valid iff ok and data.valid; otherwise data.error or the default; verifying ends in every case |
| ResetPassword.ResetPage.CurrentScreen | frontend/pages/ResetPassword.jsx:89-116 | the waiting screen while verifying, the invalid-link notice, or the form |
| ResetPassword.ResetPage.BeginSubmit | frontend/pages/ResetPassword.jsx:41-56 | clears error and message; mismatch before length; a request only when both pass, with loading set |
| ResetPassword.ResetPage.FinishSubmit | frontend/pages/ResetPassword.jsx:58-86 | success sets the message and clears both fields; loading ends in every case |
| ResetPassword.SubmitAccepted | frontend/pages/ResetPassword.jsx:41-86 | an accepted submit ends with the message, empty fields and no loading |
| App.ViewOf | frontend/App.jsx:29-41 | with a user, Home regardless of the flag; without, Register iff the flag is set |
| App.AppShell.constructor | frontend/App.jsx:8-9 | no user and no register flag, so the login view shows |
| App.AppShell.HandleLogin | frontend/App.jsx:11-14 | sets the user and clears the flag |
| App.AppShell.HandleLogout | frontend/App.jsx:16-19 | clears both the user and the flag |
| App.AppShell.HandleShowRegister | frontend/App.jsx:21-23 | sets the flag without touching the user |
| App.AppShell.HandleBackToLogin | frontend/App.jsx:25-27 | clears the flag without touching the user |
| App.AppShell.SubmitLogin | frontend/App.jsx:11-14 | only while the login view shows; the shell's login handler runs exactly when the login form lets someone in |

## Left out

- Network I/O (`fetch`, `requests`, the Overpass query, `time.sleep`) is
  not modelled. Each answer is an input.
- The HTML traversal with BeautifulSoup is not modelled. The model starts
  from the extracted cell and element texts.
- The Flask routes, the ORM models, `save_to_database`,
  `import_to_database`, `run_full_scrape` and the database block of the
  building import are not modelled. backend/models.py is not part of this
  model.
- JSON encoding and decoding are not modelled: `set_time_slots`,
  `get_time_slots`, the fun-facts text and the stored schedule. The fun
  facts take a given reader function. Storage holds the decoded list.
- Date arithmetic (the week dates, navigation, `isToday`, `toISOString`),
  `Date.now()` ids and `setTimeout` are not modelled. Dates, ids and the
  current time are parameters. The delayed return to the login form after
  a reset is a flag.
- The Leaflet map, tile layers, popups, icons and geolocation are not
  modelled. A map is a presence flag, a list of markers and a view.
- MobileApp.MobilePage.CenterOnUser: `view` is the view requested of
  Leaflet. The map is created with `maxBounds` set to the campus box
  (frontend/pages/MobileApp.jsx:38-48), and Leaflet clamps the centre into
  those bounds, so a user off campus or near the edge of the box is not
  shown at the centre.
- HomeMap.ColorOf and MobileApp.FillColor: the source looks the category
  up in a plain object literal, so a category that names an
  Object.prototype member ("constructor", "toString", "valueOf", ...)
  yields that inherited function, which is truthy, and not the fallback
  colour. The model gives the fallback for every category outside the
  table. The categories the import produces never name such a member.
- Rendering, CSS and modal overlays are not modelled. Alerts are modelled
  where a handler's result says which text is shown: adding, removing and
  showing a course on the map (Courses) and submitting a post
  (PostBoard.SubmitPost). The "coming soon" alerts of home.jsx and the
  success alert of Register.jsx are not modelled. ForgotPassword.jsx is not part of
  this model.
- The logger calls in base_scraper.py and pomona_scraper.py are left out.
  `self.logger` is undefined in pomona_scraper.py, and base_scraper.py has
  a syntax error after line 209. Only the helpers are modelled.
- MobileApp.MobilePage.SwitchTab: React reruns the map effect only when
  `activeTab` or `pois` change. The model reruns it on a tab change and
  takes the map container to exist exactly on the map tab. A change of the
  POI list alone is the same `Cleanup` then `InitMap`.
- Strings.IsSpace: Python's `str.split()`, `str.strip()` and `\s` also
  treat '\x1c' to '\x1f' and the Unicode spaces as whitespace, among them
  the '\xa0' that BeautifulSoup makes of `&nbsp;`. Here only the ASCII
  whitespace counts, so `clean_text("CSCI\xa0101")` gives "CSCI 101" in
  the source but stays one word in the model, and `extract_course_number`
  then differs. The same holds on the JavaScript side: `\s` in the time
  pattern of frontend/pages/Calendar.jsx:63 and `.trim()` in
  frontend/pages/Courses.jsx:130 and frontend/pages/CourseDetail.jsx:86
  also treat '\xa0', '\ufeff' and the Unicode spaces as whitespace, so
  "2:30\xa0PM" is a time there and not in the model.
- Strings.Lower: Python's `str.lower()` and JavaScript's `toLowerCase()`
  lower-case every Unicode letter; here only 'A' to 'Z' change. The
  KELVIN SIGN (U+212A) becomes 'k' in the source and stays as it is in
  the model, so OsmImport.CategorizeBuilding and OsmImport.GuessCollege
  (backend/import_osm_buildings.py:35 and :48) and the search of
  HomeMap.FilteredPois (frontend/pages/home.jsx:207) can differ on names
  with non-ASCII capitals.
- Strings.IsDigit: Python's `\d` matches every Unicode decimal digit
  (pomona_scraper.py:72 and :101, scrape_courses.py:72). Here only '0' to
  '9' do.
- OsmImport.ProcessElements: an OSM node without `lat` or `lon` makes
  import_osm_buildings.py:76 raise a KeyError. Here a node always carries
  its coordinates, so that error path is not modelled.
- MobileApp.Truthy: a NaN coordinate, which JavaScript also treats as
  false, has no counterpart among the integer coordinates.
- Register.PasswordError: the length counts Unicode scalar values.
  JavaScript's `length` counts UTF-16 code units, so a password with
  characters outside the Basic Multilingual Plane can be longer in the
  source than here.
- Schedule.SchedulePage.constructor: an empty stored text, which the
  source treats as nothing saved, has no counterpart once storage holds
  decoded lists.
- Login.HandleSubmit: a response body that is not JSON makes
  `response.json()` throw. Here it is one case of `NetworkFailure`, which
  gives the same message.
