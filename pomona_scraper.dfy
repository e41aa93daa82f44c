/** The Pomona catalogue scraper's text logic: the department-name table and
    the reading of one catalogue entry (course code, credits, time slot) from
    the texts of its elements. */
module PomonaScraper {
  import opened Common
  import opened Strings
  import opened BaseScraper

  // ------------------------------------------------------- department names

  const DepartmentNames: map<string, string> := map[
    "CSCI" := "Computer Science",
    "MATH" := "Mathematics",
    "BIOL" := "Biology",
    "CHEM" := "Chemistry",
    "PHYS" := "Physics",
    "ECON" := "Economics",
    "ENGL" := "English",
    "HIST" := "History",
    "PSYC" := "Psychology",
    "POLI" := "Politics"
  ]

  /** `_get_department_name`: the table's name for a listed code, the code
      itself otherwise. */
  function DepartmentName(deptCode: string): (r: string)
    ensures deptCode in DepartmentNames ==> r == DepartmentNames[deptCode]
    ensures deptCode !in DepartmentNames ==> r == deptCode
  {
    if deptCode in DepartmentNames then DepartmentNames[deptCode] else deptCode
  }

  /** The ten listed codes, and nothing else, have a name of their own. */
  lemma DepartmentNameListed(deptCode: string)
    ensures DepartmentName(deptCode) != deptCode <==>
            deptCode in {"CSCI", "MATH", "BIOL", "CHEM", "PHYS", "ECON", "ENGL", "HIST", "PSYC", "POLI"}
  {
  }

  /** Distinct listed codes get distinct names. */
  lemma DepartmentNameInjective(a: string, b: string)
    requires a in DepartmentNames && b in DepartmentNames
    requires DepartmentName(a) == DepartmentName(b)
    ensures a == b
  {
  }

  // ------------------------------------------------------------ course code

  /** End of the match of `([A-Z]{2,4})\s*(\d+[A-Z]*)` starting at `i`.
      Backtracking cannot help: taking fewer capitals leaves a capital next,
      which neither `\s` nor `\d` accepts, and taking fewer spaces leaves a
      space where a digit is needed; so a run of more than four capitals
      gives no match at its start. */
  function CodeAt(t: string, i: nat): (r: Option<nat>)
    ensures r.Some? ==> i + 3 <= r.value <= |t|
  {
    if i > |t| then None
    else
      var u := UpperRun(t, i);
      if u < 2 || u > 4 then None
      else
        var k := i + u + SpaceRun(t, i + u);
        var d := DigitRun(t, k);
        if d == 0 then None else Some(k + d + UpperRun(t, k + d))
  }

  function CodeMatcher(t: string): nat -> Option<nat>
  {
    (j: nat) => CodeAt(t, j)
  }

  /** The two groups of the match at `i`. */
  function CodeGroups(t: string, i: nat): (r: (string, string))
    requires CodeAt(t, i).Some?
    ensures 2 <= |r.0| <= 4 && (forall j :: 0 <= j < |r.0| ==> IsUpper(r.0[j]))
    ensures r.1 != [] && IsDigit(r.1[0])
  {
    var u := UpperRun(t, i);
    var k := i + u + SpaceRun(t, i + u);
    var dept := t[i..i + u];
    assert forall j :: 0 <= j < u ==> dept[j] == t[i + j];
    (dept, t[k..CodeAt(t, i).value])
  }

  /** The (department code, course number) groups of the first match in a
      title (`re.search`), if any. */
  function CourseCode(title: string): (r: Option<(string, string)>)
    ensures r.None? <==> forall j :: 0 <= j <= |title| ==> CodeAt(title, j).None?
    ensures r.Some? ==> 2 <= |r.value.0| <= 4 && (forall j :: 0 <= j < |r.value.0| ==> IsUpper(r.value.0[j]))
                        && r.value.1 != [] && IsDigit(r.value.1[0]) && |title| >= 3
  {
    var f := FirstPos(|title|, CodeMatcher(title), 0);
    assert forall j :: 0 <= j <= |title| ==> CodeMatcher(title)(j) == CodeAt(title, j);
    if f.None? then None else Some(CodeGroups(title, f.value))
  }

  /** The groups are read at the first position that matches. */
  lemma CourseCodeAt(t: string, i: nat)
    requires i <= |t| && forall j :: 0 <= j < i ==> CodeAt(t, j).None?
    requires CodeAt(t, i).Some?
    ensures CourseCode(t) == Some(CodeGroups(t, i))
  {
    assert forall j :: 0 <= j <= |t| ==> CodeMatcher(t)(j) == CodeAt(t, j);
    FirstPosFinds(|t|, CodeMatcher(t), 0, i);
  }

  /** Where the parts of "CSCI 101: ..." stand. */
  predicate CodeLayout(t: string, dept: string, digits: string, suffix: string)
  {
    var d, n := |dept|, |digits|;
    HoldsAt(t, 0, dept) && d < |t| && t[d] == ' ' && HoldsAt(t, d + 1, digits)
    && HoldsAt(t, d + 1 + n, suffix)
  }

  /** A code at the start of a title: two to four capitals, a space, digits
      and capitals, followed by the end or by neither a capital nor a
      digit. */
  predicate CodeShape(t: string, dept: string, digits: string, suffix: string)
  {
    CodeLayout(t, dept, digits, suffix)
    && 2 <= |dept| <= 4 && (forall j :: 0 <= j < |dept| ==> IsUpper(dept[j]))
    && digits != [] && AllDigits(digits) && (forall j :: 0 <= j < |suffix| ==> IsUpper(suffix[j]))
    && var e := |dept| + 1 + |digits| + |suffix|; e == |t| || (!IsUpper(t[e]) && !IsDigit(t[e]))
  }

  lemma CodeLayoutOf(dept: string, digits: string, suffix: string, rest: string)
    ensures var t := dept + " " + digits + suffix + rest;
            CodeLayout(t, dept, digits, suffix)
            && (rest != [] ==> t[|dept| + 1 + |digits| + |suffix|] == rest[0])
  {
    var t := dept + " " + digits + suffix + rest;
    HoldsAtPrefix(dept + " " + digits + suffix, rest);
    HoldsAtSplit(t, 0, dept + " " + digits, suffix);
    HoldsAtSplit(t, 0, dept + " ", digits);
    HoldsAtSplit(t, 0, dept, " ");
    HoldsAtChar(t, |dept|, " ", 0);
    HoldsAtSuffix(dept + " " + digits + suffix, rest);
    if rest != [] {
      HoldsAtChar(t, |dept| + 1 + |digits| + |suffix|, rest, 0);
    }
  }

  /** The runs the matcher measures in a laid-out title. */
  lemma CodeRuns(t: string, dept: string, digits: string, suffix: string)
    requires CodeShape(t, dept, digits, suffix)
    ensures var d, n := |dept|, |digits|;
            UpperRun(t, 0) == d && SpaceRun(t, d) == 1 && DigitRun(t, d + 1) == n
            && UpperRun(t, d + 1 + n) == |suffix|
  {
    var d, n := |dept|, |digits|;
    var k := d + 1;
    var m := k + n;
    forall j | 0 <= j < d ensures IsUpper(t[j]) {
      HoldsAtChar(t, 0, dept, j);
    }
    UpperRunIs(t, 0, d);
    HoldsAtChar(t, k, digits, 0);
    SpaceRunIs(t, d, 1);
    forall j | k <= j < m ensures IsDigit(t[j]) {
      HoldsAtChar(t, k, digits, j - k);
    }
    forall j | m <= j < m + |suffix| ensures IsUpper(t[j]) {
      HoldsAtChar(t, m, suffix, j - m);
    }
    if suffix != [] {
      HoldsAtChar(t, m, suffix, 0);
    }
    DigitRunIs(t, k, n);
    UpperRunIs(t, m, |suffix|);
  }

  /** The match at the start of a laid-out title, and its groups. */
  lemma CodeGroupsAtStart(t: string, dept: string, digits: string, suffix: string)
    requires CodeShape(t, dept, digits, suffix)
    ensures CodeAt(t, 0) == Some(|dept| + 1 + |digits| + |suffix|)
    ensures CodeGroups(t, 0) == (dept, digits + suffix)
  {
    var d, n := |dept|, |digits|;
    CodeRuns(t, dept, digits, suffix);
    HoldsAtJoin(t, d + 1, digits, suffix);
    HoldsAtSlice(t, d + 1, digits + suffix);
    HoldsAtSlice(t, 0, dept);
  }

  /** A title that starts with a code gives that code's groups. */
  lemma CourseCodeOfShape(t: string, dept: string, digits: string, suffix: string)
    requires CodeShape(t, dept, digits, suffix)
    ensures CourseCode(t) == Some((dept, digits + suffix))
  {
    CodeGroupsAtStart(t, dept, digits, suffix);
    CourseCodeAt(t, 0);
  }

  /** "CSCI 101: Intro to CS" gives ("CSCI", "101") and "MATH 60A rest"
      gives ("MATH", "60A"). */
  lemma CourseCodeOfTitle(dept: string, digits: string, suffix: string, rest: string)
    requires 2 <= |dept| <= 4 && (forall j :: 0 <= j < |dept| ==> IsUpper(dept[j]))
    requires digits != [] && AllDigits(digits) && (forall j :: 0 <= j < |suffix| ==> IsUpper(suffix[j]))
    requires rest == [] || (!IsUpper(rest[0]) && !IsDigit(rest[0]))
    ensures CourseCode(dept + " " + digits + suffix + rest) == Some((dept, digits + suffix))
  {
    CodeLayoutOf(dept, digits, suffix, rest);
    CourseCodeOfShape(dept + " " + digits + suffix + rest, dept, digits, suffix);
  }

  // ---------------------------------------------------------------- credits

  /** End of the match of `(\d+)` starting at `j`. */
  function DigitsAt(t: string, j: nat): (r: Option<nat>)
  {
    if j < |t| && IsDigit(t[j]) then Some(j + DigitRun(t, j)) else None
  }

  function DigitsMatcher(t: string): nat -> Option<nat>
  {
    (j: nat) => DigitsAt(t, j)
  }

  /** The value of the digits matched at `j`. */
  function NumberAt(t: string, j: nat): nat
    requires DigitsAt(t, j).Some?
  {
    var w := t[j..j + DigitRun(t, j)];
    assert forall k :: 0 <= k < |w| ==> w[k] == t[j + k];
    DigitsValue(w)
  }

  /** The value of the first run of digits in a text (`re.search(r'(\d+)')`
      and `int(...)`), if there is one. */
  function FirstNumber(t: string): (r: Option<nat>)
    ensures r.None? <==> forall j :: 0 <= j < |t| ==> !IsDigit(t[j])
  {
    var f := FirstPos(|t|, DigitsMatcher(t), 0);
    assert forall j :: 0 <= j <= |t| ==> DigitsMatcher(t)(j) == DigitsAt(t, j);
    if f.None? then
      assert forall j :: 0 <= j < |t| ==> !IsDigit(t[j]) by {
        forall j | 0 <= j < |t| ensures !IsDigit(t[j]) {
          assert DigitsAt(t, j).None?;
        }
      }
      None
    else
      assert f.value < |t| && IsDigit(t[f.value]);
      Some(NumberAt(t, f.value))
  }

  /** The number read at the first position holding a digit. */
  lemma FirstNumberAt(t: string, p: nat)
    requires p < |t| && IsDigit(t[p]) && forall j :: 0 <= j < p ==> !IsDigit(t[j])
    ensures FirstNumber(t) == Some(NumberAt(t, p))
  {
    assert forall j :: 0 <= j <= |t| ==> DigitsMatcher(t)(j) == DigitsAt(t, j);
    FirstPosFinds(|t|, DigitsMatcher(t), 0, p);
  }

  /** The credits of an entry: 1 when it has no credits element or its text
      holds no digit, else the value of the first run of digits. */
  function Credits(creditsText: Option<string>): (r: nat)
    ensures creditsText.None? ==> r == 1
    ensures creditsText.Some? && FirstNumber(creditsText.value).None? ==> r == 1
    ensures creditsText.Some? && FirstNumber(creditsText.value).Some? ==> r == FirstNumber(creditsText.value).value
  {
    match creditsText
    case None => 1
    case Some(t) =>
      match FirstNumber(t)
      case None => 1
      case Some(n) => n
  }

  /** A numeral at `p`, with no digit before it and none right after it, is
      the first number of the text. */
  lemma FirstNumberOfNumeral(t: string, p: nat, n: nat)
    requires HoldsAt(t, p, NatToString(n)) && forall j :: 0 <= j < p ==> !IsDigit(t[j])
    requires var e := p + |NatToString(n)|; e == |t| || !IsDigit(t[e])
    ensures FirstNumber(t) == Some(n)
  {
    var w := NatToString(n);
    FirstNumberOfDigits(t, p, w);
    DigitsValueOfNatToString(n);
  }

  /** The same for any run of digits `w` at `p`: its value is read. */
  lemma FirstNumberOfDigits(t: string, p: nat, w: string)
    requires w != [] && AllDigits(w)
    requires HoldsAt(t, p, w) && forall j :: 0 <= j < p ==> !IsDigit(t[j])
    requires p + |w| == |t| || !IsDigit(t[p + |w|])
    ensures FirstNumber(t) == Some(DigitsValue(w))
  {
    forall j | p <= j < p + |w| ensures IsDigit(t[j]) {
      HoldsAtChar(t, p, w, j - p);
    }
    DigitRunIs(t, p, |w|);
    HoldsAtChar(t, p, w, 0);
    assert DigitsAt(t, p) == Some(p + |w|);
    FirstNumberAt(t, p);
    HoldsAtSlice(t, p, w);
    calc {
      NumberAt(t, p);
      DigitsValue(t[p..p + DigitRun(t, p)]);
      DigitsValue(t[p..p + |w|]);
      DigitsValue(w);
    }
  }

  /** "4 credits" gives 4 and "Credits: 3" gives 3: the numeral after a
      text without digits is read back as its number. */
  lemma CreditsOfNumeral(pre: string, n: nat, post: string)
    requires forall j :: 0 <= j < |pre| ==> !IsDigit(pre[j])
    requires post == [] || !IsDigit(post[0])
    ensures Credits(Some(pre + NatToString(n) + post)) == n
  {
    var w := NatToString(n);
    var t := pre + w + post;
    var p := |pre|;
    HoldsAtPrefix(pre + w, post);
    HoldsAtSplit(t, 0, pre, w);
    HoldsAtSuffix(pre + w, post);
    forall j | 0 <= j < p ensures !IsDigit(t[j]) {
      HoldsAtChar(t, 0, pre, j);
    }
    if post != [] {
      HoldsAtChar(t, p + |w|, post, 0);
    }
    FirstNumberOfNumeral(t, p, n);
  }

  // ---------------------------------------------------------- catalogue entry

  /** The texts of one catalogue entry's elements; `None` for an element the
      entry does not have. */
  datatype CourseElement = CourseElement(
    title: Option<string>,
    description: Option<string>,
    instructor: Option<string>,
    time: Option<string>,
    credits: Option<string>)

  /** The record `_parse_course_element` returns. */
  datatype CourseRecord = CourseRecord(
    title: string,
    courseNumber: string,
    departmentCode: string,
    departmentName: string,
    description: string,
    instructor: string,
    credits: nat,
    semester: string,
    timeSlots: seq<TimeSlot>)

  const Semester: string := "Fall 2024"

  /** The text fields of a record under their dictionary keys. */
  function RecordFields(r: CourseRecord): map<string, string>
  {
    map["title" := r.title, "course_number" := r.courseNumber, "department_code" := r.departmentCode,
        "department_name" := r.departmentName, "description" := r.description,
        "instructor" := r.instructor, "semester" := r.semester]
  }

  predicate HasRequiredFields(r: CourseRecord)
  {
    r.title != "" && r.courseNumber != "" && r.departmentCode != ""
  }

  /** A record with the three fields filled passes `validate_course_data`. */
  lemma RequiredFieldsPresent(r: CourseRecord)
    requires HasRequiredFields(r)
    ensures forall f :: f in RequiredFields ==> Present(RecordFields(r), f)
  {
    var d := RecordFields(r);
    assert Present(d, "title") && Present(d, "course_number") && Present(d, "department_code");
  }

  /** `_parse_course_element` on the texts of an entry: nothing without a
      title or without a course code in it; otherwise the code's groups,
      the cleaned texts, the credits (1 unless a number is given) and at most
      one time slot, present exactly when the cleaned time text is not
      empty. */
  method ParseCourseElement(e: CourseElement) returns (r: Option<CourseRecord>)
    ensures e.title.None? ==> r.None?
    ensures e.title.Some? ==> (r.None? <==> CourseCode(CleanText(e.title)).None?)
    ensures r.Some? ==>
              var rec, code := r.value, CourseCode(CleanText(e.title)).value;
              rec.title == CleanText(e.title) && rec.departmentCode == code.0 && rec.courseNumber == code.1
              && rec.departmentName == DepartmentName(code.0)
              && rec.description == CleanText(e.description) && rec.instructor == CleanText(e.instructor)
              && rec.credits == Credits(e.credits) && rec.semester == Semester
    ensures r.Some? ==> |r.value.timeSlots| <= 1
                        && (|r.value.timeSlots| == 1 <==> CleanText(e.time) != "")
                        && (|r.value.timeSlots| == 1 ==> Some(r.value.timeSlots[0]) == ParseTimeSlot(Some(CleanText(e.time))))
    ensures r.Some? ==> HasRequiredFields(r.value)
  {
    if e.title.None? {
      return None;
    }
    var title := CleanText(e.title);
    var courseMatch := CourseCode(title);
    if courseMatch.None? {
      return None;
    }
    var deptCode, courseNumber := courseMatch.value.0, courseMatch.value.1;
    var description := CleanText(e.description);
    var instructor := CleanText(e.instructor);
    var timeText := CleanText(e.time);
    var timeSlots: seq<TimeSlot> := [];
    if timeText != "" {
      var timeSlot := ParseTimeSlot(Some(timeText));
      if timeSlot.Some? {
        timeSlots := timeSlots + [timeSlot.value];
      }
    }
    var credits := 1;
    if e.credits.Some? {
      var creditsMatch := FirstNumber(e.credits.value);
      if creditsMatch.Some? {
        credits := creditsMatch.value;
      }
    }
    return Some(CourseRecord(title, courseNumber, deptCode, DepartmentName(deptCode), description,
                             instructor, credits, Semester, timeSlots));
  }
}
