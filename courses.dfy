/** The course browser's helpers: weekday-letter expansion, the enrolment
    lookups, the "my courses" filter, the query URL of the course search and
    the guards of the add and view-on-map buttons. */
module Courses {
  import opened Common
  import opened Strings

  // ------------------------------------------------------------ weekdays

  predicate IsDayLetter(c: char)
  {
    c == 'M' || c == 'T' || c == 'W' || c == 'R' || c == 'F'
  }

  /** The short name of a weekday letter. */
  function DayWord(c: char): string
    requires IsDayLetter(c)
  {
    match c
    case 'M' => "Mon"
    case 'T' => "Tue"
    case 'W' => "Wed"
    case 'R' => "Thu"
    case 'F' => "Fri"
  }

  /** What one character of a days text becomes: a day letter its name and
      a space, anything else itself. */
  function DayName(c: char): string
  {
    if IsDayLetter(c) then DayWord(c) + " " else [c]
  }

  /** Reference reading of the replacement chain: every character expanded
      on its own, in one pass. */
  function ExpandDays(s: string): string
  {
    ConcatMap(s, DayName)
  }

  /** The five global replacements in the order the page applies them,
      written as the chain of its last stages: `ReplaceFrom*` applies the
      replacement of that letter and every later one. */
  function ReplaceDays(s: string): string
  {
    ReplaceFromT(ReplaceAll(s, "M", "Mon "))
  }

  function ReplaceFromT(s: string): string
  {
    ReplaceFromW(ReplaceAll(s, "T", "Tue "))
  }

  function ReplaceFromW(s: string): string
  {
    ReplaceFromR(ReplaceAll(s, "W", "Wed "))
  }

  function ReplaceFromR(s: string): string
  {
    ReplaceFromF(ReplaceAll(s, "R", "Thu "))
  }

  function ReplaceFromF(s: string): string
  {
    ReplaceAll(s, "F", "Fri ")
  }

  lemma FromFAbsent(t: string)
    requires 'F' !in t
    ensures ReplaceFromF(t) == t
  {
    ReplaceAllAbsent(t, "F", "Fri ");
  }

  lemma FromRAbsent(t: string)
    requires 'R' !in t && 'F' !in t
    ensures ReplaceFromR(t) == t
  {
    ReplaceAllAbsent(t, "R", "Thu ");
    FromFAbsent(t);
  }

  lemma FromWAbsent(t: string)
    requires 'W' !in t && 'R' !in t && 'F' !in t
    ensures ReplaceFromW(t) == t
  {
    ReplaceAllAbsent(t, "W", "Wed ");
    FromRAbsent(t);
  }

  lemma FromTAbsent(t: string)
    requires 'T' !in t && 'W' !in t && 'R' !in t && 'F' !in t
    ensures ReplaceFromT(t) == t
  {
    ReplaceAllAbsent(t, "T", "Tue ");
    FromWAbsent(t);
  }

  /** A character that is not a weekday letter passes every stage. */
  lemma OtherCharChain(x: char)
    requires !IsDayLetter(x)
    ensures ReplaceDays([x]) == [x]
  {
    ReplaceCharSingle(x, 'M', "Mon ");
    FromTAbsent([x]);
  }

  /** From the stage of its own letter on, a weekday letter becomes its
      name: the earlier stages leave it and the later ones leave the name. */
  lemma LetterFromF(x: char, w: string)
    requires x == 'F' && w == DayName(x)
    ensures ReplaceFromF([x]) == w
  {
    ReplaceCharSingle(x, 'F', "Fri ");
  }

  lemma LetterFromR(x: char, w: string)
    requires (x == 'R' || x == 'F') && w == DayName(x)
    ensures ReplaceFromR([x]) == w
  {
    ReplaceCharSingle(x, 'R', "Thu ");
    if x == 'R' {
      assert w == "Thu ";
      FromFAbsent(w);
    } else {
      LetterFromF(x, w);
    }
  }

  lemma LetterFromW(x: char, w: string)
    requires (x == 'W' || x == 'R' || x == 'F') && w == DayName(x)
    ensures ReplaceFromW([x]) == w
  {
    ReplaceCharSingle(x, 'W', "Wed ");
    if x == 'W' {
      assert w == "Wed ";
      FromRAbsent(w);
    } else {
      LetterFromR(x, w);
    }
  }

  lemma LetterFromT(x: char, w: string)
    requires (x == 'T' || x == 'W' || x == 'R' || x == 'F') && w == DayName(x)
    ensures ReplaceFromT([x]) == w
  {
    ReplaceCharSingle(x, 'T', "Tue ");
    if x == 'T' {
      assert w == "Tue ";
      FromWAbsent(w);
    } else {
      LetterFromW(x, w);
    }
  }

  lemma DayLetterChain(x: char, w: string)
    requires IsDayLetter(x) && w == DayName(x)
    ensures ReplaceDays([x]) == w
  {
    ReplaceCharSingle(x, 'M', "Mon ");
    if x == 'M' {
      assert w == "Mon ";
      FromTAbsent(w);
    } else {
      LetterFromT(x, w);
    }
  }

  lemma ReplaceDaysChar(x: char)
    ensures ReplaceDays([x]) == DayName(x)
  {
    if IsDayLetter(x) {
      DayLetterChain(x, DayName(x));
    } else {
      OtherCharChain(x);
    }
  }

  lemma ReplaceDaysAppend(a: string, b: string)
    ensures ReplaceDays(a + b) == ReplaceDays(a) + ReplaceDays(b)
  {
    ReplaceCharAppend(a, b, 'M', "Mon ");
    var a1, b1 := ReplaceAll(a, "M", "Mon "), ReplaceAll(b, "M", "Mon ");
    ReplaceCharAppend(a1, b1, 'T', "Tue ");
    var a2, b2 := ReplaceAll(a1, "T", "Tue "), ReplaceAll(b1, "T", "Tue ");
    ReplaceCharAppend(a2, b2, 'W', "Wed ");
    var a3, b3 := ReplaceAll(a2, "W", "Wed "), ReplaceAll(b2, "W", "Wed ");
    ReplaceCharAppend(a3, b3, 'R', "Thu ");
    var a4, b4 := ReplaceAll(a3, "R", "Thu "), ReplaceAll(b3, "R", "Thu ");
    ReplaceCharAppend(a4, b4, 'F', "Fri ");
  }

  lemma {:induction false} ReplaceDaysIsExpand(s: string)
    ensures ReplaceDays(s) == ExpandDays(s)
  {
    if s == [] {
      ReplaceAllAbsent([], "M", "Mon ");
      ReplaceAllAbsent([], "T", "Tue ");
      ReplaceAllAbsent([], "W", "Wed ");
      ReplaceAllAbsent([], "R", "Thu ");
      ReplaceAllAbsent([], "F", "Fri ");
    } else {
      assert s == [s[0]] + s[1..];
      ReplaceDaysAppend([s[0]], s[1..]);
      ReplaceDaysChar(s[0]);
      ReplaceDaysIsExpand(s[1..]);
    }
  }

  /** `formatDays`: 'TBA' for missing or empty days, otherwise every
      weekday letter replaced by its name and a space, then trimmed. */
  function FormatDays(days: Option<string>): (r: string)
    ensures days.None? || days == Some("") ==> r == "TBA"
    ensures days.Some? && days.value != "" ==> r == Strip(ExpandDays(days.value))
  {
    if days.None? || days.value == "" then "TBA"
    else
      ReplaceDaysIsExpand(days.value);
      Strip(ReplaceDays(days.value))
  }

  /** The day names of a text of weekday letters. */
  function DayWords(s: string): (r: seq<string>)
    requires forall i :: 0 <= i < |s| ==> IsDayLetter(s[i])
    ensures |r| == |s| && Words(r)
  {
    seq(|s|, i requires 0 <= i < |s| => DayWord(s[i]))
  }

  lemma {:induction false} ExpandDayLetters(s: string)
    requires s != [] && forall i :: 0 <= i < |s| ==> IsDayLetter(s[i])
    ensures ExpandDays(s) == Join(" ", DayWords(s)) + " "
  {
    var w := DayWords(s);
    assert ExpandDays(s) == DayName(s[0]) + ExpandDays(s[1..]);
    if |s| == 1 {
      assert s[1..] == [];
    } else {
      ExpandDayLetters(s[1..]);
      assert DayWords(s[1..]) == w[1..];
      assert Join(" ", w) == w[0] + " " + Join(" ", w[1..]);
    }
  }

  /** "MWF" gives "Mon Wed Fri" and "TR" gives "Tue Thu": a text of weekday
      letters becomes their names separated by single spaces. */
  lemma FormatDayLetters(s: string)
    requires s != [] && forall i :: 0 <= i < |s| ==> IsDayLetter(s[i])
    ensures FormatDays(Some(s)) == Join(" ", DayWords(s))
    ensures SplitWs(FormatDays(Some(s))) == DayWords(s)
  {
    var w := DayWords(s);
    ExpandDayLetters(s);
    JoinWordsShape(w);
    StripFramed("", Join(" ", w), " ");
    assert "" + Join(" ", w) + " " == Join(" ", w) + " ";
    SplitJoinWords(w);
  }

  // ------------------------------------------------------------ enrolment

  /** A row of the user's schedule; `courseId` is the id of its course, or
      `None` when the row carries no course. */
  datatype UserCourse = UserCourse(id: int, courseId: Option<int>)

  predicate Takes(uc: UserCourse, courseId: int)
  {
    uc.courseId.Some? && uc.courseId.value == courseId
  }

  function TakesCourse(courseId: int): UserCourse -> bool
  {
    (uc: UserCourse) => Takes(uc, courseId)
  }

  /** `isEnrolled`: some schedule row carries the course. */
  predicate IsEnrolled(userCourses: seq<UserCourse>, courseId: int)
  {
    exists k :: 0 <= k < |userCourses| && Takes(userCourses[k], courseId)
  }

  /** Enrolment is membership: the user takes the course exactly when a
      row holding that course id is in the list, and a row without a
      course never counts. */
  lemma IsEnrolledMembership(userCourses: seq<UserCourse>, courseId: int)
    ensures IsEnrolled(userCourses, courseId)
            <==> exists id :: UserCourse(id, Some(courseId)) in userCourses
  {
    if IsEnrolled(userCourses, courseId) {
      var k :| 0 <= k < |userCourses| && Takes(userCourses[k], courseId);
      assert UserCourse(userCourses[k].id, Some(courseId)) == userCourses[k];
    }
  }

  /** A new row for a course enrols the user in it and in nothing else. */
  lemma EnrolledAfterAdd(userCourses: seq<UserCourse>, id: int, courseId: int, other: int)
    ensures IsEnrolled(userCourses + [UserCourse(id, Some(courseId))], courseId)
    ensures other != courseId ==>
              (IsEnrolled(userCourses + [UserCourse(id, Some(courseId))], other) <==> IsEnrolled(userCourses, other))
  {
    var after := userCourses + [UserCourse(id, Some(courseId))];
    assert Takes(after[|userCourses|], courseId);
    if IsEnrolled(userCourses, other) {
      var k :| 0 <= k < |userCourses| && Takes(userCourses[k], other);
      assert after[k] == userCourses[k];
    }
    if other != courseId && IsEnrolled(after, other) {
      var k :| 0 <= k < |after| && Takes(after[k], other);
      assert k < |userCourses| && after[k] == userCourses[k];
    }
  }

  /** `getUserCourseId`: the id of the first row carrying the course, and
      nothing exactly when the user is not enrolled in it. */
  function GetUserCourseId(userCourses: seq<UserCourse>, courseId: int): (r: Option<int>)
    ensures r.None? <==> !IsEnrolled(userCourses, courseId)
    ensures r.Some? ==> exists k :: 0 <= k < |userCourses| && Takes(userCourses[k], courseId)
                                    && userCourses[k].id == r.value
                                    && forall j :: 0 <= j < k ==> !Takes(userCourses[j], courseId)
  {
    var f := FindFirst(userCourses, TakesCourse(courseId));
    if f.None? then None else Some(userCourses[f.value].id)
  }

  /** A listed course; `location` is `None` when it has none. */
  datatype CourseItem = CourseItem(id: int, title: string, location: Option<int>)

  function Enrolled(userCourses: seq<UserCourse>): CourseItem -> bool
  {
    (c: CourseItem) => IsEnrolled(userCourses, c.id)
  }

  /** `filteredCourses`: every course with the toggle off; with it on, the
      enrolled ones in list order. */
  function FilteredCourses(courses: seq<CourseItem>, userCourses: seq<UserCourse>, myCoursesOnly: bool): (r: seq<CourseItem>)
    ensures !myCoursesOnly ==> r == courses
    ensures myCoursesOnly ==> forall c :: c in r <==> c in courses && IsEnrolled(userCourses, c.id)
  {
    if myCoursesOnly then Filter(courses, Enrolled(userCourses)) else courses
  }

  /** With the toggle on, the list is the enrolled courses in their own
      order: a course is dropped exactly when it is not enrolled. */
  lemma FilteredCoursesOrder(userCourses: seq<UserCourse>, c: CourseItem, rest: seq<CourseItem>)
    ensures FilteredCourses([c] + rest, userCourses, true)
            == (if IsEnrolled(userCourses, c.id) then [c] else []) + FilteredCourses(rest, userCourses, true)
  {
    assert ([c] + rest)[1..] == rest;
  }

  // ------------------------------------------------------------ query URL

  /** One `key=value&` piece. */
  function Param(p: (string, string)): string
  {
    p.0 + "=" + p.1 + "&"
  }

  function NonEmptyValue(): ((string, string)) -> bool
  {
    (p: (string, string)) => p.1 != ""
  }

  /** Reference reading of the query over (key, value) filters: the
      pieces of the filters that are set, in list order. */
  function QueryOf(filters: seq<(string, string)>): string
  {
    ConcatMap(Filter(filters, NonEmptyValue()), Param)
  }

  /** The query of the course search: college, department, search. */
  function Query(college: string, department: string, search: string): string
  {
    QueryOf([("college", college), ("department", department), ("search", search)])
  }

  /** The piece a filter contributes: its `key=value&` when its value is
      set, nothing otherwise. */
  function PieceOf(x: (string, string)): string
  {
    if x.1 != "" then Param(x) else ""
  }

  lemma {:induction false} QueryOfCons(x: (string, string), rest: seq<(string, string)>)
    ensures QueryOf([x] + rest) == PieceOf(x) + QueryOf(rest)
  {
    var p := NonEmptyValue();
    var f := Filter(rest, p);
    var h: seq<(string, string)> := if x.1 != "" then [x] else [];
    assert ([x] + rest)[0] == x && ([x] + rest)[1..] == rest;
    assert Filter([x] + rest, p) == h + f;
    ConcatMapAppend(h, f, Param);
    if x.1 != "" {
      ConcatMapOne(x, Param);
    }
  }

  lemma ConcatMapOne(x: (string, string), f: ((string, string)) -> string)
    ensures ConcatMap([x], f) == f(x)
  {
    assert [x][1..] == [];
  }

  lemma QueryPieces(college: string, department: string, search: string)
    ensures Query(college, department, search)
            == PieceOf(("college", college)) + PieceOf(("department", department)) + PieceOf(("search", search))
  {
    var x, y, z := ("college", college), ("department", department), ("search", search);
    assert [x, y, z] == [x] + ([y] + [z]);
    assert [z] == [z] + [];
    calc {
      Query(college, department, search);
      QueryOf([x] + ([y] + [z]));
      { QueryOfCons(x, [y] + [z]); }
      PieceOf(x) + QueryOf([y] + [z]);
      { QueryOfCons(y, [z]); }
      PieceOf(x) + (PieceOf(y) + QueryOf([z]));
      { QueryOfCons(z, []); }
      PieceOf(x) + (PieceOf(y) + (PieceOf(z) + QueryOf([])));
    }
  }

  /** The course-search URL, built by appending a `key=value&` piece per
      filter that is set, as `fetchData` does. */
  method BuildCoursesUrl(apiBase: string, college: string, department: string, search: string) returns (url: string)
    ensures url == apiBase + "/courses?" + Query(college, department, search)
  {
    var x, y, z := ("college", college), ("department", department), ("search", search);
    url := apiBase + "/courses?";
    if college != "" {
      url := url + Param(x);
    }
    if department != "" {
      url := url + Param(y);
    }
    if search != "" {
      url := url + Param(z);
    }
    QueryPieces(college, department, search);
  }

  // --------------------------------------------------------------- guards

  /** What the add-course button leads to, given the server's answer. */
  datatype Outcome = Ok | Rejected | NetworkError

  datatype AddEffect = AddEffect(requested: bool, refetched: bool, alert: Option<string>)

  const AddedMessage := "\U{2705} Course added to your schedule!"

  /** `handleAddCourse`: a guest is turned away before any request; an
      accepted request reloads the lists. */
  function HandleAddCourse(role: string, outcome: Outcome): (r: AddEffect)
    ensures r.requested <==> role != "guest"
    ensures r.refetched <==> role != "guest" && outcome == Ok
    ensures role == "guest" ==> r.alert == Some("Guests cannot add courses. Please create an account!")
    ensures role != "guest" && outcome == NetworkError ==> r.alert == Some("Failed to add course")
    ensures role != "guest" && outcome == Rejected ==> r.alert.None?
    ensures role != "guest" && outcome == Ok ==> r.alert == Some(AddedMessage)
  {
    if role == "guest" then AddEffect(false, false, Some("Guests cannot add courses. Please create an account!"))
    else match outcome
      case Ok => AddEffect(true, true, Some(AddedMessage))
      case Rejected => AddEffect(true, false, None)
      case NetworkError => AddEffect(true, false, Some("Failed to add course"))
  }

  /** `handleRemoveCourse`: the request is always sent; an accepted one
      reloads the lists, a failed one alerts. */
  function HandleRemoveCourse(outcome: Outcome): (r: AddEffect)
    ensures r.requested
    ensures r.refetched <==> outcome == Ok
    ensures outcome == Ok ==> r.alert == Some("Course removed from schedule")
    ensures outcome == NetworkError ==> r.alert == Some("Failed to remove course")
    ensures outcome == Rejected ==> r.alert.None?
  {
    match outcome
    case Ok => AddEffect(true, true, Some("Course removed from schedule"))
    case Rejected => AddEffect(true, false, None)
    case NetworkError => AddEffect(true, false, Some("Failed to remove course"))
  }

  datatype MapEffect = MapEffect(shown: Option<int>, closed: bool, alerted: bool)

  /** `handleViewOnMap`: a course with a location is shown on the map and
      the list closes; otherwise only an alert appears. */
  function HandleViewOnMap(course: CourseItem): (r: MapEffect)
    ensures r.shown == course.location
    ensures r.closed <==> course.location.Some?
    ensures r.alerted <==> course.location.None?
  {
    if course.location.Some? then MapEffect(course.location, true, false)
    else MapEffect(None, false, true)
  }
}
