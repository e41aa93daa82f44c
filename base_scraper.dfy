/** The text helpers that every college scraper inherits from the scraper
    base class: whitespace normalisation, course-number extraction, time-slot
    parsing and the required-field check applied before saving a course. */
module BaseScraper {
  import opened Common
  import opened Strings

  /** Every whitespace character is a single space standing between two
      non-whitespace characters. */
  predicate SingleSpaced(r: string)
  {
    Stripped(r) && forall i :: 0 <= i < |r| && IsSpace(r[i]) ==> r[i] == ' ' && i + 1 < |r| && !IsSpace(r[i + 1])
  }

  lemma {:induction false} JoinWordsSingleSpaced(toks: seq<string>)
    requires Words(toks)
    ensures SingleSpaced(Join(" ", toks))
  {
    JoinWordsShape(toks);
    if |toks| >= 2 {
      var w := toks[0];
      var rest := Join(" ", toks[1..]);
      var j := w + " " + rest;
      assert Join(" ", toks) == j;
      JoinWordsSingleSpaced(toks[1..]);
      JoinWordsShape(toks[1..]);
      forall i | 0 <= i < |j| && IsSpace(j[i])
        ensures j[i] == ' ' && i + 1 < |j| && !IsSpace(j[i + 1])
      {
        if i == |w| {
          assert j[i + 1] == rest[0];
        } else if i > |w| {
          assert j[i] == rest[i - |w| - 1];
          assert i + 1 < |j| ==> j[i + 1] == rest[i - |w|];
        }
      }
    }
  }

  /** `clean_text`: the empty string for a missing or empty text, otherwise
      the whitespace-separated words of the text joined by single spaces. */
  function CleanText(text: Option<string>): (r: string)
    ensures text.None? || text == Some("") ==> r == ""
    ensures SingleSpaced(r)
    ensures text.Some? ==> SplitWs(r) == SplitWs(Strip(text.value))
  {
    if text.None? || text.value == "" then ""
    else
      var toks := SplitWs(Strip(text.value));
      JoinWordsSingleSpaced(toks);
      SplitJoinWords(toks);
      Join(" ", toks)
  }

  /** Cleaning cleaned text changes nothing. */
  lemma CleanTextIdempotent(text: Option<string>)
    ensures CleanText(Some(CleanText(text))) == CleanText(text)
  {
    var c := CleanText(text);
    if c != "" {
      StripOfStripped(c);
      var toks := SplitWs(Strip(text.value));
      SplitJoinWords(toks);
    }
  }

  /** `extract_course_number`: the second whitespace-separated token when
      there are at least two, otherwise the input unchanged. */
  function ExtractCourseNumber(courseString: string): (r: string)
    ensures |SplitWs(courseString)| >= 2 ==> r != [] && NoSpace(r) && r == SplitWs(courseString)[1]
    ensures |SplitWs(courseString)| < 2 ==> r == courseString
  {
    var parts := SplitWs(courseString);
    if |parts| >= 2 then parts[1] else courseString
  }

  /** "CSCI 101" gives "101": a department word, one or more spaces and a
      number word give back the number word. */
  lemma ExtractCourseNumberOfPair(dept: string, number: string)
    requires dept != [] && NoSpace(dept) && number != [] && NoSpace(number)
    ensures ExtractCourseNumber(dept + " " + number) == number
  {
    var toks := [dept, number];
    assert Join(" ", toks) == dept + " " + Join(" ", toks[1..]);
    assert Join(" ", toks[1..]) == number;
    SplitJoinWords(toks);
  }

  /** The structured result of `parse_time_slot`. */
  datatype TimeSlot =
    | Slot(days: string, startTime: string, endTime: string)
    | Raw(raw: string)

  /** The text `parse_time_slot` reads a slot from: days, one space, then
      "start-end". */
  function FormatTimeSlot(days: string, startTime: string, endTime: string): string
  {
    days + " " + (startTime + "-" + endTime)
  }

  /** `parse_time_slot`: nothing for an empty text; a slot from the first
      two tokens when the second holds exactly one '-'; otherwise the raw
      text (a second token with several '-' fails to unpack and the handler
      returns the raw text). */
  function ParseTimeSlot(timeString: Option<string>): (r: Option<TimeSlot>)
    ensures r.None? <==> timeString.None? || timeString == Some("")
    ensures r.Some? && r.value.Raw? ==> r.value.raw == timeString.value
    ensures r.Some? && r.value.Slot? ==>
              var parts := SplitWs(Strip(timeString.value));
              |parts| >= 2 && r.value.days == parts[0]
              && r.value.startTime + "-" + r.value.endTime == parts[1]
    ensures r.Some? ==>
              var parts := SplitWs(Strip(timeString.value));
              (r.value.Slot? <==> |parts| >= 2 && |SplitChar(parts[1], '-')| == 2)
    ensures r.Some? && r.value.Slot? ==>
              var pieces := SplitChar(SplitWs(Strip(timeString.value))[1], '-');
              r.value.startTime == Strip(pieces[0]) && r.value.endTime == Strip(pieces[1])
  {
    if timeString.None? || timeString.value == "" then None
    else
      var parts := SplitWs(Strip(timeString.value));
      if |parts| >= 2 && '-' in parts[1] then
        var pieces := SplitChar(parts[1], '-');
        if |pieces| == 2 then
          JoinSplitChar(parts[1], '-');
          assert Join("-", pieces) == pieces[0] + "-" + pieces[1];
          assert NoSpace(parts[1]);
          NoSpaceAroundDash(pieces[0], pieces[1]);
          StripOfStripped(pieces[0]);
          StripOfStripped(pieces[1]);
          Some(Slot(parts[0], Strip(pieces[0]), Strip(pieces[1])))
        else Some(Raw(timeString.value))
      else
        SecondWithoutDash(parts);
        Some(Raw(timeString.value))
  }

  /** A second token without '-' is a single piece. */
  lemma SecondWithoutDash(parts: seq<string>)
    ensures |parts| >= 2 && '-' !in parts[1] ==> SplitChar(parts[1], '-') == [parts[1]]
  {
    if |parts| >= 2 && '-' !in parts[1] {
      SplitCharNone(parts[1], '-');
    }
  }

  /** The two sides of a dash in a word are words. */
  lemma NoSpaceAroundDash(a: string, b: string)
    requires NoSpace(a + "-" + b)
    ensures NoSpace(a) && NoSpace(b)
  {
    var s := a + "-" + b;
    forall i | 0 <= i < |a| ensures !IsSpace(a[i]) {
      assert s[i] == a[i];
    }
    forall i | 0 <= i < |b| ensures !IsSpace(b[i]) {
      assert s[|a| + 1 + i] == b[i];
    }
  }

  /** "9:00-10:15" is one word that splits at its dash into its two ends. */
  lemma DashedPair(startTime: string, endTime: string)
    requires NoSpace(startTime) && NoSpace(endTime) && '-' !in startTime && '-' !in endTime
    ensures var range := startTime + "-" + endTime;
            NoSpace(range) && '-' in range && SplitChar(range, '-') == [startTime, endTime]
  {
    var range := startTime + "-" + endTime;
    assert range[|startTime|] == '-';
    NoSpaceAppend(startTime, "-");
    NoSpaceAppend(startTime + "-", endTime);
    SplitCharFirst(startTime, '-', endTime);
    SplitCharNone(endTime, '-');
  }

  /** The slot read from a text whose words are the days and a range that
      splits at its one dash. */
  lemma ParseTimeSlotOfWords(ts: string, days: string, range: string, startTime: string, endTime: string)
    requires ts != "" && SplitWs(Strip(ts)) == [days, range]
    requires '-' in range && SplitChar(range, '-') == [startTime, endTime]
    ensures ParseTimeSlot(Some(ts)) == Some(Slot(days, Strip(startTime), Strip(endTime)))
  {
  }

  /** Parsing a formatted slot gives the slot back ("MWF 9:00-10:15" gives
      days "MWF", start "9:00", end "10:15"). */
  lemma ParseFormattedTimeSlot(days: string, startTime: string, endTime: string)
    requires days != [] && NoSpace(days) && NoSpace(startTime) && NoSpace(endTime)
    requires '-' !in startTime && '-' !in endTime
    ensures ParseTimeSlot(Some(FormatTimeSlot(days, startTime, endTime))) == Some(Slot(days, startTime, endTime))
  {
    var range := startTime + "-" + endTime;
    DashedPair(startTime, endTime);
    SplitTwoWords(days, range);
    assert FormatTimeSlot(days, startTime, endTime) != "";
    ParseTimeSlotOfWords(FormatTimeSlot(days, startTime, endTime), days, range, startTime, endTime);
    StripOfStripped(startTime);
    StripOfStripped(endTime);
  }

  /** A single token is returned raw ("TBA" gives {"raw": "TBA"}). */
  lemma ParseSingleTokenIsRaw(token: string)
    requires token != [] && NoSpace(token)
    ensures ParseTimeSlot(Some(token)) == Some(Raw(token))
  {
    StripOfStripped(token);
    SplitJoinWords([token]);
  }

  /** A second token without '-' is returned raw ("MWF 9:00" gives
      {"raw": "MWF 9:00"}). */
  lemma ParseNoDashIsRaw(days: string, time: string)
    requires days != [] && NoSpace(days) && time != [] && NoSpace(time) && '-' !in time
    ensures ParseTimeSlot(Some(days + " " + time)) == Some(Raw(days + " " + time))
  {
    SplitTwoWords(days, time);
  }

  /** A second token with two or more '-' is returned raw. */
  lemma ParseSeveralDashesIsRaw(days: string, a: string, b: string, c: string)
    requires days != [] && NoSpace(days) && NoSpace(a) && NoSpace(b) && NoSpace(c)
    requires '-' !in a && '-' !in b
    ensures ParseTimeSlot(Some(days + " " + (a + "-" + b + "-" + c))) == Some(Raw(days + " " + (a + "-" + b + "-" + c)))
  {
    var rest := b + "-" + c;
    var range := a + "-" + rest;
    assert range == a + "-" + b + "-" + c;
    assert range[|a|] == '-';
    NoSpaceAppend(b, "-");
    NoSpaceAppend(b + "-", c);
    NoSpaceAppend(a, "-");
    NoSpaceAppend(a + "-", rest);
    SplitTwoWords(days, range);
    SplitCharFirst(a, '-', rest);
    SplitCharFirst(b, '-', c);
  }

  /** The fields `validate_course_data` insists on, in the order it checks
      them. */
  const RequiredFields: seq<string> := ["title", "course_number", "department_code"]

  /** `course_data.get(field)` is truthy. */
  predicate Present(courseData: map<string, string>, field: string)
  {
    field in courseData && courseData[field] != ""
  }

  /** `validate_course_data`: true exactly when every required field is
      present and non-empty; the loop stops at the first missing one. */
  method ValidateCourseData(courseData: map<string, string>) returns (ok: bool)
    ensures ok <==> forall f :: f in RequiredFields ==> Present(courseData, f)
    ensures ok <==> Present(courseData, "title") && Present(courseData, "course_number")
                    && Present(courseData, "department_code")
  {
    for i := 0 to |RequiredFields|
      invariant forall j :: 0 <= j < i ==> Present(courseData, RequiredFields[j])
    {
      if !Present(courseData, RequiredFields[i]) {
        return false;
      }
    }
    return true;
  }
}
