/** The course-table scraper: a `Course` record built from the text of one
    table row, with department, location, meeting time and college derived
    from the course code and the "meetings" cell, and the loop that turns the
    table's rows into courses. */
module ScrapeCourses {
  import opened Common
  import opened Strings

  // ------------------------------------------------------------ the record

  /** A scraped course: the eight cell texts and the five derived fields. */
  datatype Course = Course(
    courseCode: string,
    section: string,
    title: string,
    seatsAvailable: string,
    credit: string,
    meetings: string,
    instructors: string,
    notes: string,
    department: string,
    building: Option<string>,
    room: Option<string>,
    days: Option<string>,
    time: Option<string>,
    college: string)

  // ------------------------------------------------------------ department

  /** `extract_department`: the leading run of capital letters of the code
      (`re.match(r'([A-Z]+)', ...)`), or "UNKNOWN" when there is none. */
  function ExtractDepartment(courseCode: string): (r: string)
    ensures UpperRun(courseCode, 0) == 0 ==> r == "UNKNOWN"
    ensures UpperRun(courseCode, 0) > 0 ==>
              0 < |r| <= |courseCode| && courseCode[..|r|] == r
              && (forall i :: 0 <= i < |r| ==> IsUpper(r[i]))
              && (|r| == |courseCode| || !IsUpper(courseCode[|r|]))
  {
    var n := UpperRun(courseCode, 0);
    if n == 0 then "UNKNOWN" else courseCode[..n]
  }

  /** "AFRI010A" gives "AFRI": capital letters followed by anything that does
      not start with a capital give back the letters. */
  lemma ExtractDepartmentOfCode(dept: string, rest: string)
    requires dept != [] && forall i :: 0 <= i < |dept| ==> IsUpper(dept[i])
    requires rest == [] || !IsUpper(rest[0])
    ensures ExtractDepartment(dept + rest) == dept
  {
    var s := dept + rest;
    assert forall j :: 0 <= j < |dept| ==> s[j] == dept[j];
    assert |dept| < |s| ==> s[|dept|] == rest[0];
    UpperRunIs(s, 0, |dept|);
    assert s[..|dept|] == dept;
  }

  // -------------------------------------------------------------- location

  const Nbsp: string := "&nbsp;"

  function StripAll(ps: seq<string>): seq<string>
  {
    seq(|ps|, i requires 0 <= i < |ps| => Strip(ps[i]))
  }

  /** The comma-separated fields of the text after the last '/', each
      stripped, after `&nbsp;` has become a space. */
  function LocationFields(meetings: string): (r: seq<string>)
    ensures |r| >= 1
    ensures forall i :: 0 <= i < |r| ==> ',' !in r[i] && '/' !in r[i] && Stripped(r[i])
  {
    var pieces := SplitChar(meetings, '/');
    var last := pieces[|pieces| - 1];
    StripKeepsOut(last, '/');
    var loc := Strip(ReplaceAll(Strip(last), Nbsp, " "));
    ReplaceAllKeepsOut(Strip(last), Nbsp, " ", '/');
    StripKeepsOut(ReplaceAll(Strip(last), Nbsp, " "), '/');
    var fields := SplitChar(loc, ',');
    assert forall i :: 0 <= i < |fields| ==> '/' !in fields[i] by {
      JoinSplitChar(loc, ',');
      JoinKeepsOut(fields, [','], '/');
    }
    var r := StripAll(fields);
    assert forall i :: 0 <= i < |r| ==> ',' !in r[i] && '/' !in r[i] && Stripped(r[i]) by {
      forall i | 0 <= i < |r| ensures ',' !in r[i] && '/' !in r[i] && Stripped(r[i]) {
        StripKeepsOut(fields[i], ',');
        StripKeepsOut(fields[i], '/');
        StripSpec(fields[i]);
      }
    }
    r
  }

  /** The fields come from the text after the last '/' alone: for every
      text before it, they are the stripped comma fields of that text once
      it is stripped and its `&nbsp;` turned into spaces. */
  lemma LocationFieldsOf(pre: string, loc: string)
    requires '/' !in loc
    ensures LocationFields(pre + "/" + loc) == StripAll(SplitChar(Strip(ReplaceAll(Strip(loc), Nbsp, " ")), ','))
  {
    SplitCharLast(pre, '/', loc);
  }

  /** `extract_location`: (building, room) from the second and third fields
      of the text after the last '/'; (None, None) for an empty meetings
      text, one without '/', or fewer than two fields. */
  function ExtractLocation(meetings: string): (r: (Option<string>, Option<string>))
    ensures meetings == "" || '/' !in meetings ==> r == (None, None)
    ensures r.1.Some? ==> r.0.Some?
    ensures r.0.Some? ==> ',' !in r.0.value && '/' !in r.0.value && Stripped(r.0.value)
    ensures r.1.Some? ==> ',' !in r.1.value && '/' !in r.1.value && Stripped(r.1.value)
    ensures meetings != "" && '/' in meetings ==>
              var f := LocationFields(meetings);
              r == if |f| >= 2 then (Some(f[1]), if |f| > 2 then Some(f[2]) else None) else (None, None)
  {
    if meetings == "" || '/' !in meetings then (None, None)
    else
      var parts := LocationFields(meetings);
      if |parts| >= 2 then (Some(parts[1]), if |parts| > 2 then Some(parts[2]) else None)
      else (None, None)
  }

  /** Building and room for every meetings text with a '/': the second and
      third comma fields of what follows the last '/', and (None, None) when
      it has fewer than two fields. */
  lemma ExtractLocationOfText(pre: string, loc: string)
    requires '/' !in loc
    ensures var f := StripAll(SplitChar(Strip(ReplaceAll(Strip(loc), Nbsp, " ")), ','));
            ExtractLocation(pre + "/" + loc)
            == if |f| >= 2 then (Some(f[1]), if |f| > 2 then Some(f[2]) else None) else (None, None)
  {
    var m := pre + "/" + loc;
    assert m[|pre|] == '/';
    LocationFieldsOf(pre, loc);
  }

  // ------------------------------------------------------------ time range

  /** End of the match of `\d+:\d+[AP]M` starting at position `i` of `s`.
      Each `\d+` is followed by a character that is not a digit, so the
      greedy match is the only one. */
  function ClockAt(s: string, i: nat): (r: Option<nat>)
    ensures r.Some? ==> i + 5 <= r.value <= |s|
  {
    if i > |s| then None
    else
      var a := DigitRun(s, i);
      var j := i + a;
      if a == 0 || j >= |s| || s[j] != ':' then None
      else
        var b := DigitRun(s, j + 1);
        var k := j + 1 + b;
        if b == 0 || k + 1 >= |s| || !(s[k] == 'A' || s[k] == 'P') || s[k + 1] != 'M' then None
        else Some(k + 2)
  }

  /** End of the match of `\d+:\d+[AP]M-\d+:\d+[AP]M` starting at `i`. */
  function RangeAt(s: string, i: nat): (r: Option<nat>)
    ensures r.Some? ==> i + 11 <= r.value <= |s|
  {
    match ClockAt(s, i)
    case None => None
    case Some(e) =>
      if e >= |s| || s[e] != '-' then None
      else ClockAt(s, e + 1)
  }

  /** A clock text as the schedule writes it, such as "11:00AM". */
  datatype ClockText = ClockText(hour: string, minute: string, period: char)

  predicate WellFormedClock(c: ClockText)
  {
    c.hour != [] && AllDigits(c.hour) && c.minute != [] && AllDigits(c.minute)
    && (c.period == 'A' || c.period == 'P')
  }

  function ClockString(c: ClockText): string
  {
    c.hour + ":" + c.minute + [c.period, 'M']
  }

  function RangeString(from: ClockText, to: ClockText): string
  {
    ClockString(from) + "-" + ClockString(to)
  }

  /** The matcher recognises a written clock wherever it stands. */
  lemma ClockAtOfClock(s: string, i: nat, c: ClockText)
    requires WellFormedClock(c) && HoldsAt(s, i, ClockString(c))
    ensures ClockAt(s, i) == Some(i + |ClockString(c)|)
  {
    var h, m := c.hour, c.minute;
    HoldsAtSplit(s, i, h + ":" + m, [c.period, 'M']);
    HoldsAtSplit(s, i, h + ":", m);
    HoldsAtSplit(s, i, h, ":");
    var k := i + |h| + 1;
    var p := k + |m|;
    forall j | i <= j < i + |h| ensures IsDigit(s[j]) {
      HoldsAtChar(s, i, h, j - i);
    }
    HoldsAtChar(s, i + |h|, ":", 0);
    DigitRunIs(s, i, |h|);
    forall j | k <= j < p ensures IsDigit(s[j]) {
      HoldsAtChar(s, k, m, j - k);
    }
    HoldsAtChar(s, p, [c.period, 'M'], 0);
    HoldsAtChar(s, p, [c.period, 'M'], 1);
    DigitRunIs(s, k, |m|);
  }

  /** The matcher recognises a written range wherever it stands, whatever
      follows it. */
  lemma RangeAtOfRange(s: string, i: nat, from: ClockText, to: ClockText)
    requires WellFormedClock(from) && WellFormedClock(to) && HoldsAt(s, i, RangeString(from, to))
    ensures RangeAt(s, i) == Some(i + |RangeString(from, to)|)
  {
    var c1, c2 := ClockString(from), ClockString(to);
    HoldsAtSplit(s, i, c1 + "-", c2);
    HoldsAtSplit(s, i, c1, "-");
    ClockAtOfClock(s, i, from);
    HoldsAtChar(s, i + |c1|, "-", 0);
    ClockAtOfClock(s, i + |c1| + 1, to);
  }

  function RangeMatcher(t: string): nat -> Option<nat>
  {
    (j: nat) => RangeAt(t, j)
  }

  /** The first time-range match in `t` (`re.search`), as text. */
  function TimeRange(t: string): (r: Option<string>)
    ensures r.None? <==> forall j :: 0 <= j <= |t| ==> RangeAt(t, j).None?
    ensures r.Some? ==> |r.value| >= 11
  {
    var f := FirstPos(|t|, RangeMatcher(t), 0);
    assert forall j :: 0 <= j <= |t| ==> RangeMatcher(t)(j) == RangeAt(t, j);
    if f.None? then None
    else
      var i := f.value;
      Some(t[i..RangeAt(t, i).value])
  }

  /** The days group of `^([A-Z]+)\s+`: the leading capital letters, when a
      whitespace character follows them. */
  function LeadingDays(t: string): (r: Option<string>)
    ensures r.Some? ==> r.value != [] && (forall i :: 0 <= i < |r.value| ==> IsUpper(r.value[i]))
                        && |r.value| < |t| && t[..|r.value|] == r.value && IsSpace(t[|r.value|])
    ensures r.None? ==> UpperRun(t, 0) == 0 || UpperRun(t, 0) == |t| || !IsSpace(t[UpperRun(t, 0)])
  {
    var n := UpperRun(t, 0);
    if n > 0 && n < |t| && IsSpace(t[n]) then Some(t[..n]) else None
  }

  /** The meetings text with `&nbsp;` turned into spaces, stripped. */
  function CleanMeetings(meetings: string): string
  {
    Strip(ReplaceAll(meetings, Nbsp, " "))
  }

  lemma CleanKeepsOutSlash(meetings: string)
    ensures '/' !in meetings ==> '/' !in CleanMeetings(meetings)
  {
    if '/' !in meetings {
      ReplaceAllKeepsOut(meetings, Nbsp, " ", '/');
      StripKeepsOut(ReplaceAll(meetings, Nbsp, " "), '/');
    }
  }

  /** `extract_time`: (days, time) read from the text before the first '/'
      of the meetings text with `&nbsp;` turned into spaces; (None, None) when
      the text is empty or has no '/'. */
  function ExtractTime(meetings: string): (r: (Option<string>, Option<string>))
    ensures meetings == "" || '/' !in meetings ==> r == (None, None)
    ensures meetings != "" && '/' in CleanMeetings(meetings) ==>
              var t := Strip(SplitChar(CleanMeetings(meetings), '/')[0]);
              r == (LeadingDays(t), TimeRange(t))
    ensures r.0.Some? ==> r.0.value != [] && forall i :: 0 <= i < |r.0.value| ==> IsUpper(r.0.value[i])
    ensures r.1.Some? ==> |r.1.value| >= 11
  {
    if meetings == "" then (None, None)
    else
      var clean := CleanMeetings(meetings);
      CleanKeepsOutSlash(meetings);
      if '/' !in clean then (None, None)
      else
        var timePart := Strip(SplitChar(clean, '/')[0]);
        (LeadingDays(timePart), TimeRange(timePart))
  }

  /** Days and time for every meetings text with a '/': both are read from
      the stripped text before the first '/' of the cleaned text, whatever
      follows it. */
  lemma ExtractTimeOfText(meetings: string, pre: string, post: string)
    requires meetings != "" && CleanMeetings(meetings) == pre + "/" + post && '/' !in pre
    ensures ExtractTime(meetings) == (LeadingDays(Strip(pre)), TimeRange(Strip(pre)))
  {
    SplitCharFirst(pre, '/', post);
    assert CleanMeetings(meetings)[|pre|] == '/';
  }

  // --------------------------------------------------------------- college

  /** `extract_college`: the first campus marker found, in the fixed order
      PO, CMC, SC, HMC, PZ; "PO" for an empty text or no marker. */
  function ExtractCollege(meetings: string): (r: string)
    ensures r in {"PO", "CMC", "SC", "HMC", "PZ"}
    ensures meetings == "" ==> r == "PO"
  {
    if meetings == "" then "PO"
    else if Contains(meetings, "PO Campus") then "PO"
    else if Contains(meetings, "CMC Campus") then "CMC"
    else if Contains(meetings, "SC Campus") || Contains(meetings, "Scripps") then "SC"
    else if Contains(meetings, "HMC Campus") || Contains(meetings, "Mudd") then "HMC"
    else if Contains(meetings, "PZ Campus") || Contains(meetings, "Pitzer") then "PZ"
    else "PO"
  }

  /** The campus markers as a priority table: each college code with the
      texts that identify it. */
  const CollegeMarkers: seq<(seq<string>, string)> := [
    (["PO Campus"], "PO"),
    (["CMC Campus"], "CMC"),
    (["SC Campus", "Scripps"], "SC"),
    (["HMC Campus", "Mudd"], "HMC"),
    (["PZ Campus", "Pitzer"], "PZ")
  ]

  predicate HasMarker(meetings: string, entry: (seq<string>, string))
  {
    exists k :: 0 <= k < |entry.0| && Contains(meetings, entry.0[k])
  }

  /** Reference reading of the priority order: the code of the first table
      entry one of whose markers occurs, else "PO". */
  function CollegeByTable(meetings: string): string
  {
    match FindFirst(CollegeMarkers, e => HasMarker(meetings, e))
    case None => "PO"
    case Some(i) => CollegeMarkers[i].1
  }

  /** The if-chain is the table's priority order. */
  lemma ExtractCollegeByTable(meetings: string)
    ensures ExtractCollege(meetings) == CollegeByTable(meetings)
  {
    var p := e => HasMarker(meetings, e);
    var t := CollegeMarkers;
    assert p(t[0]) <==> Contains(meetings, "PO Campus") by { assert t[0].0[0] == "PO Campus"; }
    assert p(t[1]) <==> Contains(meetings, "CMC Campus") by { assert t[1].0[0] == "CMC Campus"; }
    assert p(t[2]) <==> Contains(meetings, "SC Campus") || Contains(meetings, "Scripps") by {
      assert t[2].0[0] == "SC Campus" && t[2].0[1] == "Scripps";
    }
    assert p(t[3]) <==> Contains(meetings, "HMC Campus") || Contains(meetings, "Mudd") by {
      assert t[3].0[0] == "HMC Campus" && t[3].0[1] == "Mudd";
    }
    assert p(t[4]) <==> Contains(meetings, "PZ Campus") || Contains(meetings, "Pitzer") by {
      assert t[4].0[0] == "PZ Campus" && t[4].0[1] == "Pitzer";
    }
    if meetings == "" {
      forall k | 0 <= k < |t| ensures !p(t[k]) {
        forall j | 0 <= j < |t[k].0| ensures !Contains(meetings, t[k].0[j]) {
          NotContainsFirst(meetings, t[k].0[j]);
        }
      }
    }
  }

  // ---------------------------------------------------------------- record

  /** `data.get(key, '')`. */
  function Get(data: map<string, string>, key: string): string
  {
    if key in data then data[key] else ""
  }

  /** The derived fields agree with the cell texts they come from. */
  predicate Derived(c: Course)
  {
    c.department == ExtractDepartment(c.courseCode)
    && (c.building, c.room) == ExtractLocation(c.meetings)
    && (c.days, c.time) == ExtractTime(c.meetings)
    && c.college == ExtractCollege(c.meetings)
  }

  /** The `Course` constructor: each cell attribute is `data.get(key, '')`
      and the derived attributes are computed from them. */
  function NewCourse(data: map<string, string>): Course
  {
    var code := Get(data, "course_code");
    var meetings := Get(data, "meetings");
    var loc := ExtractLocation(meetings);
    var time := ExtractTime(meetings);
    Course(code, Get(data, "section"), Get(data, "title"), Get(data, "seats_available"),
           Get(data, "credit"), meetings, Get(data, "instructors"), Get(data, "notes"),
           ExtractDepartment(code), loc.0, loc.1, time.0, time.1, ExtractCollege(meetings))
  }

  /** A dictionary without any of the keys gives an empty course: every
      cell attribute is '', the department is "UNKNOWN", there is no
      location or time, and the college is "PO". */
  lemma NewCourseOfEmpty()
    ensures NewCourse(map[]) == Course("", "", "", "", "", "", "", "", "UNKNOWN", None, None, None, None, "PO")
  {
    assert UpperRun("", 0) == 0;
  }

  /** The keys of `to_dict`. */
  const DictKeys: set<string> := {
    "course_code", "section", "title", "department", "college", "seats_available",
    "credit", "meetings", "days", "time", "building", "room", "instructors", "notes"
  }

  /** `to_dict`: a JSON-like record in which a missing value is None. */
  function ToDict(c: Course): (r: map<string, Option<string>>)
    ensures r.Keys == DictKeys
  {
    map[
      "course_code" := Some(c.courseCode),
      "section" := Some(c.section),
      "title" := Some(c.title),
      "department" := Some(c.department),
      "college" := Some(c.college),
      "seats_available" := Some(c.seatsAvailable),
      "credit" := Some(c.credit),
      "meetings" := Some(c.meetings),
      "days" := c.days,
      "time" := c.time,
      "building" := c.building,
      "room" := c.room,
      "instructors" := Some(c.instructors),
      "notes" := Some(c.notes)
    ]
  }

  /** Keys whose value is always a string. */
  predicate TextKey(d: map<string, Option<string>>, k: string)
  {
    k in d && d[k].Some?
  }

  predicate IsCourseDict(d: map<string, Option<string>>)
  {
    d.Keys == DictKeys
    && TextKey(d, "course_code") && TextKey(d, "section") && TextKey(d, "title")
    && TextKey(d, "department") && TextKey(d, "college") && TextKey(d, "seats_available")
    && TextKey(d, "credit") && TextKey(d, "meetings") && TextKey(d, "instructors")
    && TextKey(d, "notes")
  }

  /** Reads a course back from its dictionary. */
  function FromDict(d: map<string, Option<string>>): Course
    requires IsCourseDict(d)
  {
    Course(d["course_code"].value, d["section"].value, d["title"].value,
           d["seats_available"].value, d["credit"].value, d["meetings"].value,
           d["instructors"].value, d["notes"].value, d["department"].value,
           d["building"], d["room"], d["days"], d["time"], d["college"].value)
  }

  /** Every attribute sits under its own key: the dictionary determines the
      course. */
  lemma ToDictRoundTrip(c: Course)
    ensures IsCourseDict(ToDict(c)) && FromDict(ToDict(c)) == c
  {
  }

  lemma ToDictInjective(c: Course, d: Course)
    requires ToDict(c) == ToDict(d)
    ensures c == d
  {
    ToDictRoundTrip(c);
    ToDictRoundTrip(d);
  }

  // -------------------------------------------------------------- row split

  const Separator: string := " - "

  /** The row's first cell split into (course code, section): the stripped
      text before the first " - ", and the stripped second piece or "01". */
  function SplitCourseSection(cell: string): (r: (string, string))
    ensures IndexOf(cell, Separator).None? ==> r == (Strip(cell), "01")
    ensures IndexOf(cell, Separator).Some? ==> r.0 == Strip(cell[..IndexOf(cell, Separator).value])
    ensures IndexOf(cell, Separator).Some? ==>
              var rest := cell[IndexOf(cell, Separator).value + |Separator|..];
              r.1 == Strip(if IndexOf(rest, Separator).None? then rest else rest[..IndexOf(rest, Separator).value])
  {
    var parts := SplitOn(cell, Separator);
    SplitOnSecond(cell, Separator);
    (Strip(parts[0]), if |parts| > 1 then Strip(parts[1]) else "01")
  }

  /** A text without '-' holds no separator. */
  lemma NoSeparator(s: string)
    requires '-' !in s
    ensures IndexOf(s, Separator) == None
  {
    forall j | 0 <= j <= |s| ensures !StartsWith(s[j..], Separator) {
      assert j + 1 >= |s| || s[j + 1] != '-';
      NotStartsAt(s, j, Separator, 1);
    }
    IndexFromNone(s, Separator, 0);
  }

  /** With no '-' in the code, the first separator is the one after it. */
  lemma SeparatorAfterCode(code: string, section: string)
    requires '-' !in code
    ensures IndexOf(code + Separator + section, Separator) == Some(|code|)
  {
    var cell := code + Separator + section;
    var c := |code|;
    assert HoldsAt(cell, c, Separator);
    StartsAt(cell, c, Separator);
    forall j | 0 <= j < c ensures !StartsWith(cell[j..], Separator) {
      assert cell[j + 1] != '-' by {
        if j + 1 < c { assert cell[j + 1] == code[j + 1]; }
      }
      NotStartsAt(cell, j, Separator, 1);
    }
    IndexFromIs(cell, Separator, 0, c);
  }

  /** "AFRI010A AF - 01" gives ("AFRI010A AF", "01"): the code and the
      section are the stripped texts on either side of the separator when
      neither holds a '-'. */
  lemma SplitCourseSectionOfCell(code: string, section: string)
    requires '-' !in code && '-' !in section
    ensures SplitCourseSection(code + Separator + section) == (Strip(code), Strip(section))
  {
    var cell := code + Separator + section;
    SeparatorAfterCode(code, section);
    NoSeparator(section);
    assert cell[..|code|] == code;
    assert cell[|code| + 3..] == section;
    assert SplitOn(cell, Separator) == [code, section];
  }

  // ------------------------------------------------------------- the rows

  /** A row with at least six cells is a course row. */
  predicate IsCourseRow(tds: seq<string>)
  {
    |tds| >= 6
  }

  /** The course built from one row's cell texts. */
  function RowCourse(tds: seq<string>): Course
    requires IsCourseRow(tds)
  {
    var cs := SplitCourseSection(tds[0]);
    NewCourse(CourseData(cs.0, cs.1, tds[1], tds[2], tds[3], tds[4], tds[5], if |tds| > 6 then tds[6] else ""))
  }

  /** The `course_data` dictionary of one row. */
  function CourseData(code: string, section: string, title: string, seats: string, credit: string,
                      meetings: string, instructors: string, notes: string): map<string, string>
  {
    map[
      "course_code" := code,
      "section" := section,
      "title" := title,
      "seats_available" := seats,
      "credit" := credit,
      "meetings" := meetings,
      "instructors" := instructors,
      "notes" := notes
    ]
  }

  /** Every cell of the dictionary reaches its own attribute. */
  lemma NewCourseOfData(code: string, section: string, title: string, seats: string, credit: string,
                        meetings: string, instructors: string, notes: string)
    ensures var r := NewCourse(CourseData(code, section, title, seats, credit, meetings, instructors, notes));
            r.courseCode == code && r.section == section && r.title == title && r.seatsAvailable == seats
            && r.credit == credit && r.meetings == meetings && r.instructors == instructors && r.notes == notes
            && Derived(r)
  {
    var data := CourseData(code, section, title, seats, credit, meetings, instructors, notes);
    assert Get(data, "course_code") == code && Get(data, "meetings") == meetings;
  }

  /** Each cell lands in its own attribute; the seventh cell, the notes, is
      optional. */
  lemma RowCourseFields(tds: seq<string>)
    requires IsCourseRow(tds)
    ensures var r := RowCourse(tds);
            Derived(r)
            && (r.courseCode, r.section) == SplitCourseSection(tds[0])
            && r.title == tds[1] && r.seatsAvailable == tds[2] && r.credit == tds[3]
            && r.meetings == tds[4] && r.instructors == tds[5]
            && r.notes == if |tds| > 6 then tds[6] else ""
  {
    var cs := SplitCourseSection(tds[0]);
    NewCourseOfData(cs.0, cs.1, tds[1], tds[2], tds[3], tds[4], tds[5], if |tds| > 6 then tds[6] else "");
  }

  /** What one row contributes: its course, or nothing for a short row. */
  function RowCourses(tds: seq<string>): seq<Course>
  {
    if IsCourseRow(tds) then [RowCourse(tds)] else []
  }

  /** The courses the row loop produces: one per course row, in row order. */
  function Scraped(rows: seq<seq<string>>): seq<Course>
  {
    ConcatMap(rows, RowCourses)
  }

  /** Reference reading: the courses are those of the course rows, that is
      the short rows are dropped and the rest keep their order. */
  lemma ScrapedIsFilter(rows: seq<seq<string>>)
    ensures var kept := Filter(rows, IsCourseRow);
            |Scraped(rows)| == |kept|
            && forall i :: 0 <= i < |kept| ==> Scraped(rows)[i] == RowCourse(kept[i])
  {
    ConcatMapIsFilter(rows, RowCourses, IsCourseRow);
  }

  /** The loop over the table rows (`scrape_courses_from_html`, after the
      table has been found): short rows are skipped, every other row is
      appended as a course. */
  method ScrapeRows(rows: seq<seq<string>>) returns (courses: seq<Course>)
    ensures courses == Scraped(rows)
  {
    courses := [];
    for i := 0 to |rows|
      invariant courses == Scraped(rows[..i])
    {
      var tds := rows[i];
      ConcatMapStep(rows, i, RowCourses);
      if |tds| < 6 {
        continue;
      }
      courses := courses + [RowCourse(tds)];
    }
    assert rows[..|rows|] == rows;
  }

  // --------------------------------------------- the meetings text, in full

  /** A location field: non-empty, stripped, and free of the separators and
      of '&'. */
  predicate PlainField(s: string)
  {
    s != [] && Stripped(s) && ',' !in s && '/' !in s && '&' !in s
  }

  predicate Capitals(s: string)
  {
    s != [] && forall i :: 0 <= i < |s| ==> IsUpper(s[i])
  }

  /** "PO Campus, Lincoln, 1135". */
  function LocationText(campus: string, building: string, room: string): string
  {
    campus + "," + (" " + building + "," + (" " + room))
  }

  /** "MW 11:00AM-12:15PM " and "/" and " PO Campus, Lincoln, 1135": a
      meetings text as the course table writes it. */
  function MeetingsText(days: string, range: string, campus: string, building: string, room: string): string
  {
    (days + " " + range + " ") + "/" + (" " + LocationText(campus, building, room))
  }

  lemma ClockPlain(c: ClockText)
    requires WellFormedClock(c)
    ensures var w := ClockString(c); w != [] && '/' !in w && ',' !in w && '&' !in w && !IsSpace(w[0]) && !IsSpace(w[|w| - 1])
  {
    assert ClockString(c)[0] == c.hour[0];
    forall x | x in c.hour + c.minute ensures IsDigit(x) {
      var j :| 0 <= j < |c.hour + c.minute| && (c.hour + c.minute)[j] == x;
      if j >= |c.hour| { assert x == c.minute[j - |c.hour|]; }
    }
    assert '/' !in c.hour + c.minute && ',' !in c.hour + c.minute && '&' !in c.hour + c.minute;
  }

  /** A range has none of '/', ',' and '&', and no whitespace at its ends. */
  lemma RangePlain(from: ClockText, to: ClockText)
    requires WellFormedClock(from) && WellFormedClock(to)
    ensures var w := RangeString(from, to);
            '/' !in w && ',' !in w && '&' !in w && !IsSpace(w[0]) && !IsSpace(w[|w| - 1])
  {
    ClockPlain(from);
    ClockPlain(to);
    var w, c1, c2 := RangeString(from, to), ClockString(from), ClockString(to);
    assert w[0] == c1[0] && w[|w| - 1] == c2[|c2| - 1];
  }

  /** The location text has no '/' or '&' and is stripped. */
  lemma LocationTextPlain(campus: string, building: string, room: string)
    requires PlainField(campus) && PlainField(building) && PlainField(room)
    ensures var x := LocationText(campus, building, room);
            '/' !in x && '&' !in x && Stripped(x)
  {
    var x := LocationText(campus, building, room);
    assert x[0] == campus[0];
    assert x[|x| - 1] == room[|room| - 1];
  }

  /** The comma-separated pieces of the location text. */
  lemma LocationTextPieces(campus: string, building: string, room: string)
    requires ',' !in campus && ',' !in building && ',' !in room
    ensures SplitChar(LocationText(campus, building, room), ',') == [campus, " " + building, " " + room]
  {
    var b, r := " " + building, " " + room;
    SplitCharFirst(campus, ',', b + "," + r);
    SplitCharFirst(b, ',', r);
    SplitCharNone(r, ',');
  }

  /** Stripping the pieces gives the three fields back. */
  lemma LocationTextFields(campus: string, building: string, room: string)
    requires PlainField(campus) && PlainField(building) && PlainField(room)
    ensures StripAll(SplitChar(LocationText(campus, building, room), ',')) == [campus, building, room]
  {
    LocationTextPieces(campus, building, room);
    var ps := [campus, " " + building, " " + room];
    StripOfStripped(campus);
    StripSpaced(building);
    StripSpaced(room);
    assert StripAll(ps) == [Strip(campus), Strip(" " + building), Strip(" " + room)];
  }

  /** A field after the space that follows a comma strips back to itself. */
  lemma StripSpaced(s: string)
    requires Stripped(s)
    ensures Strip(" " + s) == s
  {
    StripSpacePrefix(' ', s);
    StripOfStripped(s);
  }

  /** "MW 11:00AM-12:15PM / PO Campus, Lincoln, 1135" gives building
      "Lincoln" and room "1135". */
  lemma ExtractLocationOfMeetings(days: string, range: string, campus: string, building: string, room: string)
    requires '/' !in days && '/' !in range
    requires PlainField(campus) && PlainField(building) && PlainField(room)
    ensures ExtractLocation(MeetingsText(days, range, campus, building, room)) == (Some(building), Some(room))
  {
    var x := LocationText(campus, building, room);
    var pre := days + " " + range + " ";
    var m := pre + "/" + (" " + x);
    LocationTextPlain(campus, building, room);
    LocationTextFields(campus, building, room);
    assert '/' !in pre;
    SplitCharFirst(pre, '/', " " + x);
    SplitCharNone(" " + x, '/');
    assert SplitChar(m, '/') == [pre, " " + x];
    StripSpacePrefix(' ', x);
    StripOfStripped(x);
    assert Strip(" " + x) == x;
    ReplaceAllAbsent(x, Nbsp, " ");
    assert Strip(ReplaceAll(Strip(" " + x), Nbsp, " ")) == x;
    assert LocationFields(m) == [campus, building, room];
  }

  /** Capital letters and a space: the days group is the letters. */
  lemma LeadingDaysOf(days: string, rest: string)
    requires Capitals(days)
    ensures LeadingDays(days + " " + rest) == Some(days)
  {
    var t := days + " " + rest;
    assert forall j :: 0 <= j < |days| ==> t[j] == days[j];
    assert t[|days|] == ' ';
    UpperRunIs(t, 0, |days|);
    assert t[..|days|] == days;
  }

  /** No range can start at a character that is not a digit. */
  lemma RangeAtNonDigit(t: string, j: nat)
    requires j < |t| && !IsDigit(t[j])
    ensures RangeAt(t, j).None?
  {
    assert DigitRun(t, j) == 0;
  }

  /** The search finds the first position where a range starts. */
  lemma TimeRangeAt(t: string, k: nat, e: nat)
    requires k <= |t| && forall j :: 0 <= j < k ==> RangeAt(t, j).None?
    requires RangeAt(t, k) == Some(e)
    ensures TimeRange(t) == Some(t[k..e])
  {
    assert forall j :: 0 <= j <= |t| ==> RangeMatcher(t)(j) == RangeAt(t, j);
    FirstPosFinds(|t|, RangeMatcher(t), 0, k);
  }

  /** A range after a text without digits is the first match. */
  lemma TimeRangeAfter(pre: string, from: ClockText, to: ClockText)
    requires forall j :: 0 <= j < |pre| ==> !IsDigit(pre[j])
    requires WellFormedClock(from) && WellFormedClock(to)
    ensures TimeRange(pre + RangeString(from, to)) == Some(RangeString(from, to))
  {
    var range := RangeString(from, to);
    var t := pre + range;
    forall j | 0 <= j < |pre| ensures RangeAt(t, j).None? {
      assert t[j] == pre[j];
      RangeAtNonDigit(t, j);
    }
    HoldsAtSuffix(pre, range);
    RangeAtOfRange(t, |pre|, from, to);
    TimeRangeAt(t, |pre|, |t|);
    assert t[|pre|..|t|] == range;
  }

  /** The days, one space and a range: the days group is the days and the
      time group the range. */
  lemma TimePartGroups(days: string, from: ClockText, to: ClockText)
    requires Capitals(days) && WellFormedClock(from) && WellFormedClock(to)
    ensures var range := RangeString(from, to);
            var t := days + " " + range;
            LeadingDays(t) == Some(days) && TimeRange(t) == Some(range)
  {
    LeadingDaysOf(days, RangeString(from, to));
    var pre := days + " ";
    forall j | 0 <= j < |pre| ensures !IsDigit(pre[j]) {
      if j < |days| { assert IsUpper(days[j]); }
    }
    TimeRangeAfter(pre, from, to);
  }

  /** Capital letters are neither '&' nor '/'. */
  lemma CapitalsPlain(days: string)
    requires Capitals(days)
    ensures '&' !in days && '/' !in days && !IsSpace(days[0])
  {
    assert forall x :: x in days ==> IsUpper(x);
  }

  /** A meetings text needs no cleaning: it has no `&nbsp;` and is
      stripped. */
  lemma MeetingsClean(days: string, range: string, campus: string, building: string, room: string)
    requires Capitals(days) && '&' !in range
    requires PlainField(campus) && PlainField(building) && PlainField(room)
    ensures var m := MeetingsText(days, range, campus, building, room);
            Strip(ReplaceAll(m, Nbsp, " ")) == m
  {
    var x := LocationText(campus, building, room);
    var m := MeetingsText(days, range, campus, building, room);
    LocationTextPlain(campus, building, room);
    CapitalsPlain(days);
    assert '&' !in m;
    ReplaceAllAbsent(m, Nbsp, " ");
    assert m[0] == days[0] && m[|m| - 1] == x[|x| - 1];
    StripOfStripped(m);
  }

  /** The part of a meetings text before its first '/', stripped, is the
      days, one space and the range. */
  lemma TimePartOfMeetings(days: string, range: string, campus: string, building: string, room: string)
    requires Capitals(days) && range != [] && '/' !in range
    requires !IsSpace(range[|range| - 1])
    ensures var m := MeetingsText(days, range, campus, building, room);
            '/' in m && Strip(SplitChar(m, '/')[0]) == days + " " + range
  {
    var x := LocationText(campus, building, room);
    var t := days + " " + range;
    CapitalsPlain(days);
    assert '/' !in t + " ";
    SplitCharFirst(t + " ", '/', " " + x);
    assert t[|t| - 1] == range[|range| - 1];
    StripFramed("", t, " ");
    assert "" + t + " " == t + " ";
  }

  /** "MW 11:00AM-12:15PM / PO Campus, Lincoln, 1135" gives days "MW" and
      time "11:00AM-12:15PM". */
  lemma ExtractTimeOfMeetings(days: string, from: ClockText, to: ClockText, campus: string, building: string, room: string)
    requires Capitals(days) && WellFormedClock(from) && WellFormedClock(to)
    requires PlainField(campus) && PlainField(building) && PlainField(room)
    ensures ExtractTime(MeetingsText(days, RangeString(from, to), campus, building, room)) == (Some(days), Some(RangeString(from, to)))
  {
    RangePlain(from, to);
    MeetingsClean(days, RangeString(from, to), campus, building, room);
    TimePartOfMeetings(days, RangeString(from, to), campus, building, room);
    TimePartGroups(days, from, to);
  }
}
