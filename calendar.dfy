/** The week calendar's helpers: reading an event's "h:mm AM" time, writing
    it back, the hour-row labels, and the filters that decide which events
    appear on a day and in an hour row. */
module Calendar {
  import opened Common
  import opened Strings

  // ------------------------------------------------------- the time regex

  /** `AM` or `PM` in any case, as `(AM|PM)` with the `i` flag matches. */
  predicate IsPeriod(p: string)
  {
    |p| == 2 && (p[0] == 'A' || p[0] == 'a' || p[0] == 'P' || p[0] == 'p') && (p[1] == 'M' || p[1] == 'm')
  }

  /** End of the match of `(\d+):(\d+)\s*(AM|PM)` starting at `i`. Each
      greedy run is followed by a character the next part of the pattern
      needs and the run cannot hold, so backtracking never finds another
      match. */
  function TimeAt(s: string, i: nat): (r: Option<nat>)
    ensures r.Some? ==> i + 5 <= r.value <= |s|
  {
    if i > |s| then None
    else
      var a := DigitRun(s, i);
      var j := i + a;
      if a == 0 || j >= |s| || s[j] != ':' then None
      else
        var b := DigitRun(s, j + 1);
        var k := j + 1 + b;
        var m := k + SpaceRun(s, k);
        if b == 0 || m + 2 > |s| || !IsPeriod(s[m..m + 2]) then None
        else Some(m + 2)
  }

  function TimeMatcher(s: string): nat -> Option<nat>
  {
    (j: nat) => TimeAt(s, j)
  }

  /** The three groups of a match: hour digits, minute digits and the
      period as written. */
  datatype TimeMatch = TimeMatch(hour: string, minute: string, period: string)

  function TimeGroups(s: string, i: nat): TimeMatch
    requires TimeAt(s, i).Some?
  {
    var a := DigitRun(s, i);
    var b := DigitRun(s, i + a + 1);
    var k := i + a + 1 + b;
    var m := k + SpaceRun(s, k);
    var e := TimeAt(s, i).value;
    TimeMatch(s[i..i + a], s[i + a + 1..k], s[e - 2..e])
  }

  /** A match's groups are a digit run, a digit run and a period. */
  lemma TimeGroupsShape(s: string, i: nat)
    requires TimeAt(s, i).Some?
    ensures var r := TimeGroups(s, i);
            r.hour != [] && AllDigits(r.hour) && r.minute != [] && AllDigits(r.minute) && IsPeriod(r.period)
  {
    var a := DigitRun(s, i);
    var b := DigitRun(s, i + a + 1);
    var hour, minute := s[i..i + a], s[i + a + 1..i + a + 1 + b];
    assert forall j :: 0 <= j < a ==> hour[j] == s[i + j];
    assert forall j :: 0 <= j < b ==> minute[j] == s[i + a + 1 + j];
  }

  /** `timeStr.match(/(\d+):(\d+)\s*(AM|PM)/i)`: the groups of the first
      match. */
  function MatchTime(s: string): (r: Option<TimeMatch>)
    ensures r.None? <==> forall j :: 0 <= j <= |s| ==> TimeAt(s, j).None?
    ensures r.Some? ==> r.value.hour != [] && AllDigits(r.value.hour) && r.value.minute != []
                        && AllDigits(r.value.minute) && IsPeriod(r.value.period)
  {
    var f := FirstPos(|s|, TimeMatcher(s), 0);
    assert forall j :: 0 <= j <= |s| ==> TimeMatcher(s)(j) == TimeAt(s, j);
    if f.None? then None
    else
      TimeGroupsShape(s, f.value);
      Some(TimeGroups(s, f.value))
  }

  /** The groups are read at the first position that matches. */
  lemma MatchTimeAt(s: string, i: nat)
    requires i <= |s| && forall j :: 0 <= j < i ==> TimeAt(s, j).None?
    requires TimeAt(s, i).Some?
    ensures MatchTime(s) == Some(TimeGroups(s, i))
  {
    assert forall j :: 0 <= j <= |s| ==> TimeMatcher(s)(j) == TimeAt(s, j);
    FirstPosFinds(|s|, TimeMatcher(s), 0, i);
  }

  /** Where the parts of "2:30 PM..." stand. */
  predicate TimeLayout(t: string, hour: string, minute: string, sp: string, period: string)
  {
    var h, n := |hour|, |minute|;
    HoldsAt(t, 0, hour) && h < |t| && t[h] == ':' && HoldsAt(t, h + 1, minute)
    && HoldsAt(t, h + 1 + n, sp) && HoldsAt(t, h + 1 + n + |sp|, period)
  }

  /** A time at the start of a text: digits, a colon, digits, whitespace
      and a period in any case. */
  predicate TimeShape(t: string, hour: string, minute: string, sp: string, period: string)
  {
    TimeLayout(t, hour, minute, sp, period)
    && hour != [] && AllDigits(hour) && minute != [] && AllDigits(minute)
    && (forall j :: 0 <= j < |sp| ==> IsSpace(sp[j])) && IsPeriod(period)
  }

  lemma TimeLayoutOf(hour: string, minute: string, sp: string, period: string, rest: string)
    ensures TimeLayout(hour + ":" + minute + sp + period + rest, hour, minute, sp, period)
  {
    var t := hour + ":" + minute + sp + period + rest;
    HoldsAtPrefix(hour + ":" + minute + sp + period, rest);
    HoldsAtSplit(t, 0, hour + ":" + minute + sp, period);
    HoldsAtSplit(t, 0, hour + ":" + minute, sp);
    HoldsAtSplit(t, 0, hour + ":", minute);
    HoldsAtSplit(t, 0, hour, ":");
    HoldsAtChar(t, |hour|, ":", 0);
  }

  /** The runs the matcher measures in a laid-out time. */
  lemma TimeRuns(t: string, hour: string, minute: string, sp: string, period: string)
    requires TimeShape(t, hour, minute, sp, period)
    ensures var h, n := |hour|, |minute|;
            DigitRun(t, 0) == h && DigitRun(t, h + 1) == n && SpaceRun(t, h + 1 + n) == |sp|
  {
    HourRun(t, hour, minute, sp, period);
    MinuteRun(t, hour, minute, sp, period);
    GapRun(t, hour, minute, sp, period);
  }

  lemma HourRun(t: string, hour: string, minute: string, sp: string, period: string)
    requires TimeShape(t, hour, minute, sp, period)
    ensures DigitRun(t, 0) == |hour|
  {
    forall j | 0 <= j < |hour| ensures IsDigit(t[j]) {
      HoldsAtChar(t, 0, hour, j);
    }
    DigitRunIs(t, 0, |hour|);
  }

  lemma MinuteRun(t: string, hour: string, minute: string, sp: string, period: string)
    requires TimeShape(t, hour, minute, sp, period)
    ensures DigitRun(t, |hour| + 1) == |minute|
  {
    var k := |hour| + 1;
    var m := k + |minute|;
    forall j | k <= j < m ensures IsDigit(t[j]) {
      HoldsAtChar(t, k, minute, j - k);
    }
    if sp != [] {
      HoldsAtChar(t, m, sp, 0);
    } else {
      HoldsAtChar(t, m, period, 0);
    }
    DigitRunIs(t, k, |minute|);
  }

  lemma GapRun(t: string, hour: string, minute: string, sp: string, period: string)
    requires TimeShape(t, hour, minute, sp, period)
    ensures SpaceRun(t, |hour| + 1 + |minute|) == |sp|
  {
    var m := |hour| + 1 + |minute|;
    forall j | m <= j < m + |sp| ensures IsSpace(t[j]) {
      HoldsAtChar(t, m, sp, j - m);
    }
    HoldsAtChar(t, m + |sp|, period, 0);
    SpaceRunIs(t, m, |sp|);
  }

  /** The match at the start of a laid-out time, and its groups. */
  lemma TimeGroupsAtStart(t: string, hour: string, minute: string, period: string, e: nat)
    requires TimeAt(t, 0) == Some(e)
    requires DigitRun(t, 0) == |hour| && DigitRun(t, |hour| + 1) == |minute|
    requires t[0..0 + |hour|] == hour && t[0 + |hour| + 1..0 + |hour| + 1 + |minute|] == minute
    requires t[e - 2..e] == period
    ensures TimeGroups(t, 0) == TimeMatch(hour, minute, period)
  {
  }

  /** The slices the groups are cut from are the laid-out parts. */
  lemma TimeSlices(t: string, hour: string, minute: string, sp: string, period: string)
    requires TimeShape(t, hour, minute, sp, period)
    ensures var h, n, e := |hour|, |minute|, |hour| + 1 + |minute| + |sp| + 2;
            t[0..0 + h] == hour && t[0 + h + 1..0 + h + 1 + n] == minute && t[e - 2..e] == period
  {
    var h, n := |hour|, |minute|;
    HoldsAtSlice(t, 0, hour);
    HoldsAtSlice(t, h + 1, minute);
    HoldsAtSlice(t, h + 1 + n + |sp|, period);
  }

  lemma TimeAtStart(t: string, h: nat, n: nat, c: nat, period: string)
    requires h > 0 && n > 0 && h < |t| && t[h] == ':' && h + 1 + n + c + 2 <= |t|
    requires DigitRun(t, 0) == h && DigitRun(t, h + 1) == n && SpaceRun(t, h + 1 + n) == c
    requires t[h + 1 + n + c + 2 - 2..h + 1 + n + c + 2] == period && IsPeriod(period)
    ensures TimeAt(t, 0) == Some(h + 1 + n + c + 2)
  {
  }

  /** A text that starts with a time gives that time's groups, whatever
      follows it. */
  lemma MatchTimeOfText(hour: string, minute: string, sp: string, period: string, rest: string)
    requires hour != [] && AllDigits(hour) && minute != [] && AllDigits(minute)
    requires (forall j :: 0 <= j < |sp| ==> IsSpace(sp[j])) && IsPeriod(period)
    ensures MatchTime(hour + ":" + minute + sp + period + rest) == Some(TimeMatch(hour, minute, period))
  {
    var t := hour + ":" + minute + sp + period + rest;
    TimeLayoutOf(hour, minute, sp, period, rest);
    TimeFactsOfShape(t, hour, minute, sp, period);
    MatchTimeOfFacts(t, hour, minute, sp, period);
    MatchTimeAt(t, 0);
  }

  /** The facts the matcher reads from a laid-out time. */
  predicate TimeFacts(t: string, hour: string, minute: string, sp: string, period: string)
  {
    var h, n, c := |hour|, |minute|, |sp|;
    h > 0 && n > 0 && h < |t| && t[h] == ':' && h + 1 + n + c + 2 <= |t|
    && DigitRun(t, 0) == h && DigitRun(t, h + 1) == n && SpaceRun(t, h + 1 + n) == c
    && t[0..0 + h] == hour && t[0 + h + 1..0 + h + 1 + n] == minute
    && t[h + 1 + n + c + 2 - 2..h + 1 + n + c + 2] == period && IsPeriod(period)
  }

  lemma TimeFactsOfShape(t: string, hour: string, minute: string, sp: string, period: string)
    requires TimeShape(t, hour, minute, sp, period)
    ensures TimeFacts(t, hour, minute, sp, period)
  {
    TimeRuns(t, hour, minute, sp, period);
    TimeSlices(t, hour, minute, sp, period);
  }

  lemma MatchTimeOfFacts(t: string, hour: string, minute: string, sp: string, period: string)
    requires TimeFacts(t, hour, minute, sp, period)
    ensures TimeAt(t, 0).Some? && TimeGroups(t, 0) == TimeMatch(hour, minute, period)
  {
    var e := |hour| + 1 + |minute| + |sp| + 2;
    TimeAtStart(t, |hour|, |minute|, |sp|, period);
    TimeGroupsAtStart(t, hour, minute, period, e);
  }

  // ------------------------------------------------------------- parsing

  /** A parsed time, `hours + minutes / 60` kept as its two integer parts. */
  datatype EventTime = EventTime(hours: nat, minutes: nat)

  predicate IsPm(period: string)
  {
    Upper(period) == "PM"
  }

  /** A matched period reads, upper-cased, as "AM" or "PM". */
  lemma PeriodUpper(p: string)
    requires IsPeriod(p)
    ensures Upper(p) == "AM" || Upper(p) == "PM"
    ensures Upper(p) == "PM" <==> (p[0] == 'P' || p[0] == 'p')
  {
    var u := Upper(p);
    assert u[0] == UpperChar(p[0]) && u[1] == UpperChar(p[1]);
    if p[0] == 'P' || p[0] == 'p' {
      assert u == "PM";
    } else {
      assert u == "AM";
    }
  }

  /** The clock-hour rule: a PM hour other than 12 moves up by 12 and 12 AM
      becomes 0. On the clock hours 1 to 12 the result is the hour of the
      day: below 24, equal to the clock hour modulo 12, and in the
      afternoon half exactly for PM. */
  function Hour24(h: nat, pm: bool): (r: nat)
    ensures 1 <= h <= 12 ==> r < 24 && r % 12 == h % 12 && (r >= 12 <==> pm)
  {
    if pm && h != 12 then h + 12 else if !pm && h == 12 then 0 else h
  }

  /** Those three facts fix the hour of the day. */
  lemma Hour24Unique(h: nat, pm: bool, x: nat)
    requires 1 <= h <= 12 && x < 24 && x % 12 == h % 12 && (x >= 12 <==> pm)
    ensures x == Hour24(h, pm)
  {
  }

  /** What `parseEventTime` returns: nothing for a missing or empty text or
      when the pattern does not match; otherwise the hour of the day from
      the clock hour and the period, and the minutes. */
  function EventTimeOf(timeStr: Option<string>): (r: Option<EventTime>)
    ensures r.None? <==> timeStr.None? || timeStr.value == "" || MatchTime(timeStr.value).None?
    ensures r.Some? ==> var m := MatchTime(timeStr.value).value;
                        r.value.minutes == DigitsValue(m.minute)
                        && r.value.hours == Hour24(DigitsValue(m.hour), m.period[0] == 'P' || m.period[0] == 'p')
  {
    if timeStr.None? || timeStr.value == "" then None
    else match MatchTime(timeStr.value)
      case None => None
      case Some(m) =>
        PeriodUpper(m.period);
        Some(EventTime(Hour24(DigitsValue(m.hour), IsPm(m.period)), DigitsValue(m.minute)))
  }

  /** `parseEventTime`, adjusting the hour step by step as the page does. */
  method ParseEventTime(timeStr: Option<string>) returns (r: Option<EventTime>)
    ensures r == EventTimeOf(timeStr)
  {
    if timeStr.None? || timeStr.value == "" {
      return None;
    }
    var match_ := MatchTime(timeStr.value);
    if match_.None? {
      return None;
    }
    var hours := DigitsValue(match_.value.hour);
    var minutes := DigitsValue(match_.value.minute);
    var period := Upper(match_.value.period);
    PeriodUpper(match_.value.period);
    if period == "PM" && hours != 12 {
      hours := hours + 12;
    }
    if period == "AM" && hours == 12 {
      hours := 0;
    }
    return Some(EventTime(hours, minutes));
  }

  /** A time written at the start of a text, with any spacing and any
      letter case in the period ("2:30 pm" as "2:30PM"), is read as its
      hour of the day and minutes. */
  lemma EventTimeOfText(hour: string, minute: string, sp: string, period: string, rest: string)
    requires hour != [] && AllDigits(hour) && minute != [] && AllDigits(minute)
    requires (forall j :: 0 <= j < |sp| ==> IsSpace(sp[j])) && IsPeriod(period)
    ensures EventTimeOf(Some(hour + ":" + minute + sp + period + rest))
            == Some(EventTime(Hour24(DigitsValue(hour), period[0] == 'P' || period[0] == 'p'), DigitsValue(minute)))
  {
    MatchTimeOfText(hour, minute, sp, period, rest);
  }

  /** `Math.floor(parseEventTime(...))`: the whole hours of the time. */
  function WholeHour(t: EventTime): nat
  {
    t.hours + t.minutes / 60
  }

  /** A clock hour from 1 to 12 with minutes below 60 lands in one of the
      calendar's 24 rows, the one of its hour of the day. */
  lemma WholeHourInDay(h: nat, pm: bool, minutes: nat)
    requires 1 <= h <= 12 && minutes < 60
    ensures WholeHour(EventTime(Hour24(h, pm), minutes)) == Hour24(h, pm) < 24
  {
  }

  // ----------------------------------------------------------- formatting

  /** `formatEventTime`: "" for a missing or empty text, the text itself
      when the pattern does not match, otherwise "h:mm P" with one space
      and the period as written. */
  function FormatEventTime(timeStr: Option<string>): (r: string)
    ensures timeStr.None? || timeStr == Some("") ==> r == ""
    ensures timeStr.Some? && MatchTime(timeStr.value).None? ==> r == timeStr.value
    ensures timeStr.Some? && timeStr.value != "" && MatchTime(timeStr.value).Some? ==>
              var m := MatchTime(timeStr.value).value;
              r == m.hour + ":" + m.minute + " " + m.period
  {
    if timeStr.None? || timeStr.value == "" then ""
    else match MatchTime(timeStr.value)
      case None => timeStr.value
      case Some(m) => m.hour + ":" + m.minute + " " + m.period
  }

  /** The formatted time matches with the same groups as the original. */
  lemma FormatKeepsMatch(s: string)
    requires s != "" && MatchTime(s).Some?
    ensures MatchTime(FormatEventTime(Some(s))) == MatchTime(s)
  {
    var m := MatchTime(s).value;
    MatchTimeOfText(m.hour, m.minute, " ", m.period, "");
    assert m.hour + ":" + m.minute + " " + m.period + "" == m.hour + ":" + m.minute + " " + m.period;
  }

  /** Formatting keeps the time the calendar reads from the text. */
  lemma FormatKeepsEventTime(s: string)
    ensures EventTimeOf(Some(FormatEventTime(Some(s)))) == EventTimeOf(Some(s))
  {
    if s != "" && MatchTime(s).Some? {
      FormatKeepsMatch(s);
    }
  }

  /** Formatting a formatted time changes nothing. */
  lemma FormatEventTimeIdempotent(s: string)
    ensures FormatEventTime(Some(FormatEventTime(Some(s)))) == FormatEventTime(Some(s))
  {
    if s != "" && MatchTime(s).Some? {
      FormatKeepsMatch(s);
    }
  }

  // ---------------------------------------------------------- hour labels

  /** The time-gutter label of an hour row. */
  function HourLabel(hour: nat): string
  {
    if hour == 0 then "12 AM"
    else if hour < 12 then NatToString(hour) + " AM"
    else if hour == 12 then "12 PM"
    else NatToString(hour - 12) + " PM"
  }

  /** The clock hour of an hour of the day. */
  function Hour12(hour: nat): (r: nat)
    ensures 1 <= r <= 12
  {
    if hour % 12 == 0 then 12 else hour % 12
  }

  /** Every row is labelled with its clock hour and the half of the day. */
  lemma HourLabelSpec(hour: nat)
    requires hour < 24
    ensures HourLabel(hour) == NatToString(Hour12(hour)) + (if hour < 12 then " AM" else " PM")
  {
    if hour == 0 {
      assert NatToString(12) == "12";
    } else if hour == 12 {
      assert NatToString(12) == "12";
    }
  }

  /** Reading a row's label back with the clock-hour rule gives the row. */
  lemma HourLabelRoundTrip(hour: nat)
    requires hour < 24
    ensures Hour24(Hour12(hour), hour >= 12) == hour
  {
  }

  // --------------------------------------------------------------- events

  datatype Event = Event(id: int, title: string, status: string, eventDate: Option<string>, eventTime: Option<string>)

  /** A starred item: `item_id` refers to an event or a location. */
  datatype Star = Star(itemId: int, itemType: string)

  function IsApproved(): Event -> bool
  {
    (e: Event) => e.status == "approved"
  }

  /** The events `fetchEvents` keeps: the approved ones, in order. */
  function ApprovedEvents(data: seq<Event>): (r: seq<Event>)
    ensures forall e :: e in r <==> e in data && e.status == "approved"
  {
    Filter(data, IsApproved())
  }

  function IsEventStar(): Star -> bool
  {
    (s: Star) => s.itemType == "event"
  }

  /** The stars `fetchStarredEvents` keeps: those of events, in order. */
  function EventStars(data: seq<Star>): (r: seq<Star>)
    ensures forall s :: s in r <==> s in data && s.itemType == "event"
  {
    Filter(data, IsEventStar())
  }

  predicate IsStarred(stars: seq<Star>, id: int)
  {
    exists k :: 0 <= k < |stars| && stars[k].itemId == id
  }

  function OnDate(stars: seq<Star>, dateStr: string): Event -> bool
  {
    (e: Event) => e.eventDate.Some? && e.eventDate.value != "" && e.eventDate.value == dateStr && IsStarred(stars, e.id)
  }

  /** `getEventsForDate`: the events dated `dateStr` that carry a star, in
      order; an event without a date is never shown. */
  function EventsForDate(events: seq<Event>, stars: seq<Star>, dateStr: string): (r: seq<Event>)
    ensures forall e :: e in r <==> e in events && e.eventDate == Some(dateStr) && dateStr != ""
                                    && IsStarred(stars, e.id)
  {
    var r := Filter(events, OnDate(stars, dateStr));
    assert forall e :: OnDate(stars, dateStr)(e) <==> e.eventDate == Some(dateStr) && dateStr != "" && IsStarred(stars, e.id);
    r
  }

  function InHour(hour: nat): Event -> bool
  {
    (e: Event) => EventTimeOf(e.eventTime).Some? && WholeHour(EventTimeOf(e.eventTime).value) == hour
  }

  /** The events of a day shown in one hour row: those whose time is read
      and whose whole hours are the row's hour. */
  function EventsInHour(dayEvents: seq<Event>, hour: nat): (r: seq<Event>)
    ensures forall e :: e in r <==> e in dayEvents && EventTimeOf(e.eventTime).Some?
                                    && WholeHour(EventTimeOf(e.eventTime).value) == hour
  {
    Filter(dayEvents, InHour(hour))
  }

  /** An event whose text starts with a clock time of 1 to 12 and minutes
      below 60 is shown in exactly one of the 24 rows. */
  lemma EventShownOnce(dayEvents: seq<Event>, e: Event, hour: string, minute: string, sp: string,
                       period: string, rest: string)
    requires e in dayEvents && e.eventTime == Some(hour + ":" + minute + sp + period + rest)
    requires hour != [] && AllDigits(hour) && minute != [] && AllDigits(minute)
    requires (forall j :: 0 <= j < |sp| ==> IsSpace(sp[j])) && IsPeriod(period)
    requires 1 <= DigitsValue(hour) <= 12 && DigitsValue(minute) < 60
    ensures var row := Hour24(DigitsValue(hour), period[0] == 'P' || period[0] == 'p');
            row < 24 && e in EventsInHour(dayEvents, row)
            && forall other :: other != row ==> e !in EventsInHour(dayEvents, other)
  {
    EventTimeOfText(hour, minute, sp, period, rest);
    WholeHourInDay(DigitsValue(hour), period[0] == 'P' || period[0] == 'p', DigitsValue(minute));
  }
}
