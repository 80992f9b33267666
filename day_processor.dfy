/**
 * `find_weekday` (processors/json_day_processor.py:3-53), the second parser of
 * outage notices. It searches, ignoring case, for
 *
 *   .*? (weekday) \s* (?: (date) \s* (?: \s* (?:kello|klo|klo\.) \s* (clock)
 *                                       (?: \s* [-—–]+ \s* (clock) )? )? )? \s* (.*)
 *
 * where the date is `\d{1,2}\.\d{1,2}(?:\.\d{4})?` and the clock time
 * `\d{1,2}(?:[.:]\d{2})?`. Only the weekday is mandatory: a time needs a
 * date before it, an end time needs a start time, and every optional part is
 * taken the first way it can be. The two module-level variables the function
 * updates, `last_valid_year` and `rejected_entries`, are the fields of the
 * class `WeekdayFinder`.
 */
module DayProcessor {
  import opened Text
  import opened Wrappers
  import opened Tokens
  import MainPattern

  /** The initial value of `last_valid_year` (the integer 2025, which formats as this string). */
  const InitialYear: string := "2025"

  /** The dictionary `find_weekday` returns for a matched notice. */
  datatype DayRecord = DayRecord(
    weekday: string,
    date: string,
    timeStart: string,
    timeEnd: string,
    message: string)

  /** The clock times of the time part and where it stopped. */
  datatype DayTime = DayTime(start: string, end: Option<string>, stop: nat)

  /** The five groups of one match, `(.*)` not yet stripped. */
  datatype DayCaptures = DayCaptures(
    weekday: string,
    date: Option<DateMatch>,
    timeStart: Option<string>,
    timeEnd: Option<string>,
    tail: string)

  /** The optional end time of the time part and where the match stopped. */
  datatype EndPart = EndPart(end: Option<string>, stop: nat)

  /** The separator class `[-—–]`: hyphen, em dash and en dash. */
  predicate IsDayDash(c: char) { c == '-' || c == '\U{2014}' || c == '\U{2013}' }

  /** End of the dash run at `i`: where a greedy `[-—–]+` stops when it matches. */
  function DayDashesEnd(s: string, i: nat): (j: nat)
    requires i <= |s|
    ensures i <= j <= |s|
    ensures forall k {:trigger IsDayDash(s[k])} :: i <= k < j ==> IsDayDash(s[k])
    ensures j == |s| || !IsDayDash(s[j])
    decreases |s| - i
  {
    if i < |s| && IsDayDash(s[i]) then DayDashesEnd(s, i + 1) else i
  }

  /**
   * Reference reading of the optional end part `\s*[-—–]+\s*(clock)` at
   * `j`: an end time is read exactly when a dash run follows the whitespace
   * and a digit follows the whitespace after it, and it is then the clock
   * time Python's engine reads there.
   */
  predicate EndReading(s: string, j: nat, end: Option<string>)
    requires j <= |s|
  {
    var a := SkipSpaces(s, j); var d := DayDashesEnd(s, a); var b := SkipSpaces(s, d);
    && (end.Some? <==> a < d && b < |s| && IsDigit(s[b]))
    && (end.Some? ==> GreedyClock(s, b, end.value))
  }

  /** Where the match stops after the end part read at `j`: after the end time, or at `j` when there is none. */
  function EndStop(s: string, j: nat, end: Option<string>): (stop: nat)
    requires j <= |s| && EndReading(s, j, end)
    ensures j <= stop <= |s|
  {
    if end.Some? then Past(SkipSpaces(s, DayDashesEnd(s, SkipSpaces(s, j))), end.value) else j
  }

  /**
   * Reference reading of `\s*(clock)` and the optional end part after a time
   * marker ending at `e`: the start is the clock time read after the
   * whitespace, and the end part is read right where the start stops.
   */
  predicate TimeReading(s: string, e: nat, start: string, end: Option<string>)
    requires e <= |s|
  {
    var a := SkipSpaces(s, e);
    && GreedyClock(s, a, start)
    && EndReading(s, Past(a, start), end)
  }

  /** Where the match stops after the times read after a marker ending at `e`. */
  function TimeStop(s: string, e: nat, start: string, end: Option<string>): (stop: nat)
    requires e <= |s| && TimeReading(s, e, start, end)
    ensures e <= stop <= |s|
  {
    EndStop(s, Past(SkipSpaces(s, e), start), end)
  }

  /**
   * The optional end part `\s*[-—–]+\s*(clock)` at `j`: the end time and where
   * it stops, or nothing (and `j`) when no dash or no clock time follows.
   */
  function EndPartAt(s: string, j: nat): (r: EndPart)
    requires j <= |s|
    ensures EndReading(s, j, r.end) && r.stop == EndStop(s, j, r.end)
    ensures r.end.Some? ==> IsClock(r.end.value)
  {
    var a := SkipSpaces(s, j);
    var d := DayDashesEnd(s, a);
    if d == a then EndPart(None, j)
    else
      var b := SkipSpaces(s, d);
      match ClockAt(s, b)
      case None => EndPart(None, j)
      case Some(n) =>
        var t := s[b..b + n];
        EndFromClock(s, j, t);
        EndPart(Some(t), Past(b, t))
  }

  /** A clock time read after a dash run and the whitespace around it is the reading of the end part. */
  lemma EndFromClock(s: string, j: nat, t: string)
    requires j <= |s|
    requires var a := SkipSpaces(s, j); var d := DayDashesEnd(s, a);
             a < d && GreedyClock(s, SkipSpaces(s, d), t)
    ensures EndReading(s, j, Some(t))
  {
    var b := SkipSpaces(s, DayDashesEnd(s, SkipSpaces(s, j)));
    assert IsDigit(s[b]) by { assert t[0] == s[b]; }
  }

  /** A digit follows the whitespace at `e`. */
  predicate DigitAfter(s: string, e: nat)
    requires e <= |s|
  {
    var a := SkipSpaces(s, e); a < |s| && IsDigit(s[a])
  }

  /**
   * After a time marker ending at `e`: `\s*(clock)` and the optional end
   * part, present exactly when a digit follows the whitespace.
   */
  function ClockAfter(s: string, e: nat): (r: Option<DayTime>)
    requires e <= |s|
    ensures r.Some? <==> DigitAfter(s, e)
    ensures r.Some? ==> TimeReading(s, e, r.value.start, r.value.end)
    ensures r.Some? ==> r.value.stop == TimeStop(s, e, r.value.start, r.value.end)
    ensures r.Some? ==> IsClock(r.value.start) && (r.value.end.Some? ==> IsClock(r.value.end.value))
  {
    var a := SkipSpaces(s, e);
    match ClockAt(s, a)
    case None => None
    case Some(n) =>
      var start := s[a..a + n];
      var p := EndPartAt(s, Past(a, start));
      Some(DayTime(start, p.end, p.stop))
  }

  /**
   * Reference reading of the marker alternation `(?:kello|klo|klo\.)\s*(clock)`
   * at `m`: where the first marker, in the order the alternation lists them,
   * that whitespace and a digit follow ends. (After `klo.` the character
   * following `klo` is the dot, so a start time can follow at most one
   * marker.)
   */
  function TimeMarkerEnd(s: string, m: nat): (r: Option<nat>)
    ensures r.Some? ==> m < r.value <= |s| && DigitAfter(s, r.value)
  {
    if StartsWithCI(s, m, "kello") && DigitAfter(s, m + 5) then Some(m + 5)
    else if StartsWithCI(s, m, "klo") && DigitAfter(s, m + 3) then Some(m + 3)
    else if StartsWithCI(s, m, "klo.") && DigitAfter(s, m + 4) then Some(m + 4)
    else None
  }

  /**
   * The optional time part at `i`: `\s*`, then the first marker, in the order
   * the alternation lists them, that a start time follows, and the times read
   * after it.
   */
  function DayTimeAt(s: string, i: nat): (r: Option<DayTime>)
    requires i <= |s|
    ensures r.Some? <==> TimeMarkerEnd(s, SkipSpaces(s, i)).Some?
    ensures r.Some? ==> var e := TimeMarkerEnd(s, SkipSpaces(s, i)).value;
      && TimeReading(s, e, r.value.start, r.value.end)
      && r.value.stop == TimeStop(s, e, r.value.start, r.value.end)
    ensures r.Some? ==> i <= r.value.stop && IsClock(r.value.start)
    ensures r.Some? && r.value.end.Some? ==> IsClock(r.value.end.value)
  {
    match TimeMarkerEnd(s, SkipSpaces(s, i))
    case None => None
    case Some(e) => ClockAfter(s, e)
  }

  /** The groups after the weekday are each of the shape their group allows, and a later group needs the earlier ones. */
  predicate WellFormedGroups(date: Option<DateMatch>, timeStart: Option<string>, timeEnd: Option<string>, tail: string) {
    && (date.Some? ==> WellFormedDate(date.value))
    && (timeStart.Some? ==> IsClock(timeStart.value) && date.Some?)
    && (timeEnd.Some? ==> IsClock(timeEnd.value) && timeStart.Some?)
    && '\n' !in tail
  }

  /**
   * Reference reading of what the groups after a weekday name ending at `q`
   * capture: the date Python's engine reads after the whitespace, exactly
   * when `\d{1,2}\.\d` is there, then the times and message read after the
   * date and its whitespace; without a date, no times and the rest of the
   * line after the whitespace.
   */
  predicate DayGroupsAfter(s: string, q: nat, date: Option<DateMatch>, timeStart: Option<string>,
                           timeEnd: Option<string>, tail: string)
    requires q <= |s|
  {
    var k := SkipSpaces(s, q);
    && (date.Some? <==> DayMonthAt(s, k))
    && (date.None? ==> timeStart.None? && timeEnd.None? && tail == LineFrom(s, k))
    && (date.Some? ==> GreedyDate(s, k, date.value) && date.value.end <= |s|
                       && DayTimesAfter(s, SkipSpaces(s, date.value.end), timeStart, timeEnd, tail))
  }

  /**
   * Reference reading of the times and message after a date and its
   * whitespace ending at `e`: the times read after the first marker a start
   * time follows, if there is one, and the rest of the line after the
   * whitespace that follows the last part read.
   */
  predicate DayTimesAfter(s: string, e: nat, timeStart: Option<string>, timeEnd: Option<string>, tail: string)
    requires e <= |s|
  {
    var me := TimeMarkerEnd(s, e);
    && (timeStart.Some? <==> me.Some?)
    && (me.None? ==> timeEnd.None? && tail == LineFrom(s, e))
    && (me.Some? ==> timeStart.Some? && TimeReading(s, me.value, timeStart.value, timeEnd)
                     && tail == LineFrom(s, SkipSpaces(s, TimeStop(s, me.value, timeStart.value, timeEnd))))
  }

  /** Everything after the weekday at `q`: `\s*`, the optional date group with its time part, `\s*(.*)`. */
  function AfterWeekday(s: string, q: nat): (c: DayCaptures)
    requires q <= |s|
    ensures c.weekday == ""
    ensures DayGroupsAfter(s, q, c.date, c.timeStart, c.timeEnd, c.tail)
    ensures WellFormedGroups(c.date, c.timeStart, c.timeEnd, c.tail)
  {
    var k := SkipSpaces(s, q);
    match DateAt(s, k)
    case None =>
      DayCaptures("", None, None, None, LineFrom(s, SkipSpaces(s, k)))
    case Some(d) =>
      var e := SkipSpaces(s, d.end);
      match DayTimeAt(s, e)
      case None =>
        DayCaptures("", Some(d), None, None, LineFrom(s, SkipSpaces(s, e)))
      case Some(t) =>
        DayCaptures("", Some(d), Some(t.start), t.end, LineFrom(s, SkipSpaces(s, t.stop)))
  }

  /** Reference reading of what each group of a match with its weekday name at `p` captures. */
  predicate DayGroupsAt(s: string, p: nat, c: DayCaptures) {
    && WeekdayAt(s, p).Some? && c.weekday == WeekdayTextAt(s, p)
    && DayGroupsAfter(s, Past(p, c.weekday), c.date, c.timeStart, c.timeEnd, c.tail)
  }

  /** The groups when the pattern is matched with its weekday at `p`. */
  function DayMatchAt(s: string, p: nat): (c: DayCaptures)
    requires WeekdayAt(s, p).Some?
    ensures DayGroupsAt(s, p, c)
    ensures WellFormedGroups(c.date, c.timeStart, c.timeEnd, c.tail)
  {
    var w := WeekdayTextAt(s, p);
    var rest := AfterWeekday(s, Past(p, w));
    DayCaptures(w, rest.date, rest.timeStart, rest.timeEnd, rest.tail)
  }

  /** The reading of the groups leaves no choice: at most one set of captures fits it. */
  lemma DayGroupsUnique(s: string, p: nat, c1: DayCaptures, c2: DayCaptures)
    requires DayGroupsAt(s, p, c1) && DayGroupsAt(s, p, c2)
    ensures c1 == c2
  {
    GroupsAfterUnique(s, Past(p, c1.weekday), Past(p, c2.weekday), c1.date, c1.timeStart, c1.timeEnd, c1.tail,
                      c2.date, c2.timeStart, c2.timeEnd, c2.tail);
  }

  lemma GroupsAfterUnique(s: string, q1: nat, q2: nat,
                          date1: Option<DateMatch>, start1: Option<string>, end1: Option<string>, tail1: string,
                          date2: Option<DateMatch>, start2: Option<string>, end2: Option<string>, tail2: string)
    requires q1 == q2 <= |s|
    requires DayGroupsAfter(s, q1, date1, start1, end1, tail1) && DayGroupsAfter(s, q2, date2, start2, end2, tail2)
    ensures date1 == date2 && start1 == start2 && end1 == end2 && tail1 == tail2
  {
    if date1.Some? {
      GreedyDateUnique(s, SkipSpaces(s, q1), SkipSpaces(s, q2), date1.value, date2.value);
      TimesAfterUnique(s, SkipSpaces(s, date1.value.end), SkipSpaces(s, date2.value.end),
                       start1, end1, tail1, start2, end2, tail2);
    }
  }

  lemma TimesAfterUnique(s: string, e1: nat, e2: nat,
                         start1: Option<string>, end1: Option<string>, tail1: string,
                         start2: Option<string>, end2: Option<string>, tail2: string)
    requires e1 == e2 <= |s|
    requires DayTimesAfter(s, e1, start1, end1, tail1) && DayTimesAfter(s, e2, start2, end2, tail2)
    ensures start1 == start2 && end1 == end2 && tail1 == tail2
  {
    if TimeMarkerEnd(s, e1).Some? {
      TimeUnique(s, TimeMarkerEnd(s, e1).value, TimeMarkerEnd(s, e2).value, start1.value, end1, start2.value, end2);
    }
  }

  lemma TimeUnique(s: string, e1: nat, e2: nat, start1: string, end1: Option<string>, start2: string, end2: Option<string>)
    requires e1 == e2 <= |s| && TimeReading(s, e1, start1, end1) && TimeReading(s, e2, start2, end2)
    ensures start1 == start2 && end1 == end2
  {
    GreedyClockUnique(s, SkipSpaces(s, e1), start1, start2);
    EndUnique(s, Past(SkipSpaces(s, e1), start1), Past(SkipSpaces(s, e2), start2), end1, end2);
  }

  lemma EndUnique(s: string, j1: nat, j2: nat, end1: Option<string>, end2: Option<string>)
    requires j1 == j2 <= |s| && EndReading(s, j1, end1) && EndReading(s, j2, end2)
    ensures end1 == end2
  {
    if end1.Some? {
      var b := SkipSpaces(s, DayDashesEnd(s, SkipSpaces(s, j1)));
      GreedyClockUnique(s, b, end1.value, end2.value);
    }
  }

  /** Reference reading: a weekday name starts at `p`, ignoring case. */
  ghost predicate NameAt(s: string, p: nat) {
    exists j :: 0 <= j < |Weekdays| && StartsWithCI(s, p, Weekdays[j])
  }

  /** `re.search`: the leftmost position where a weekday name starts. */
  function LocateWeekday(s: string): (r: Option<nat>)
    ensures r.None? <==> forall p :: 0 <= p < |s| ==> !NameAt(s, p)
    ensures r.Some? ==> r.value < |s| && NameAt(s, r.value) && WeekdayAt(s, r.value).Some?
    ensures r.Some? ==> forall p :: 0 <= p < r.value ==> !NameAt(s, p)
  {
    var ok := (q: nat) => WeekdayAt(s, q).Some?;
    var r := MainPattern.LocateFrom(0, |s|, ok);
    assert forall q: nat :: ok(q) == WeekdayAt(s, q).Some?;
    if r.Some? then
      NoNameBefore(s, r.value);
      NameIffWeekday(s, r.value);
      r
    else
      NoNameBefore(s, |s|);
      r
  }

  /** The scanner's alternation finds a name exactly where the reference reading does. */
  lemma NameIffWeekday(s: string, p: nat)
    ensures NameAt(s, p) <==> WeekdayAt(s, p).Some?
  {
  }

  lemma NoNameBefore(s: string, e: nat)
    requires forall q :: 0 <= q < e ==> WeekdayAt(s, q).None?
    ensures forall q :: 0 <= q < e ==> !NameAt(s, q)
  {
    forall q | 0 <= q < e ensures !NameAt(s, q) {
      NameIffWeekday(s, q);
    }
  }

  /** The groups of the match `re.search` returns, if any. */
  function DaySearch(s: string): (r: Option<DayCaptures>)
    ensures r.None? <==> forall p :: 0 <= p < |s| ==> !NameAt(s, p)
    ensures r.Some? ==> LocateWeekday(s).Some? && DayGroupsAt(s, LocateWeekday(s).value, r.value)
    ensures r.Some? ==> WellFormedGroups(r.value.date, r.value.timeStart, r.value.timeEnd, r.value.tail)
  {
    match LocateWeekday(s)
    case None => None
    case Some(p) => Some(DayMatchAt(s, p))
  }

  /**
   * `find_weekday` as a function of the notice and `last_valid_year`: the
   * record (None when no weekday name occurs) and the year afterwards. The
   * date is split on dots: three parts make its last part the remembered
   * year; two parts get the remembered year and the note appended.
   */
  function FindWeekdayResult(data: string, lastYear: string): (r: (Option<DayRecord>, string))
    ensures r.0.None? <==> forall p :: 0 <= p < |data| ==> !NameAt(data, p)
    ensures r.0.None? ==> r.1 == lastYear
  {
    match DaySearch(data)
    case None => (None, lastYear)
    case Some(c) =>
      var d := DateField(c.date, lastYear);
      (Some(DayRecord(c.weekday, d.0, TimeField(c.timeStart), TimeField(c.timeEnd), MessageField(c.tail))), d.1)
  }

  /** The record built from the groups of a match. */
  lemma ResultOfMatch(data: string, lastYear: string, c: DayCaptures)
    requires DaySearch(data) == Some(c)
    ensures var d := DateField(c.date, lastYear);
            FindWeekdayResult(data, lastYear)
            == (Some(DayRecord(c.weekday, d.0, TimeField(c.timeStart), TimeField(c.timeEnd), MessageField(c.tail))), d.1)
  {
  }

  /** A clock-time group, or `Unknown` when it did not take part in the match. */
  function TimeField(t: Option<string>): string {
    if t.Some? then t.value else Unknown
  }

  /**
   * The message: `Unknown` when the group is empty, and otherwise what is left
   * of it once the leading run of dots and spaces is removed.
   */
  function MessageField(tail: string): (m: string)
    ensures tail == "" ==> m == Unknown
    ensures tail != "" ==> |m| <= |tail| && m == tail[|tail| - |m|..]
    ensures tail != "" ==> forall k :: 0 <= k < |tail| - |m| ==> IsDotOrBlank(tail[k])
    ensures tail != "" ==> m == [] || !IsDotOrBlank(m[0])
  {
    if tail != "" then LStripDotsAndSpaces(tail) else Unknown
  }

  /** The date field and `last_valid_year` afterwards, from the date group and `last_valid_year` before. */
  function DateField(date: Option<DateMatch>, lastYear: string): (r: (string, string))
  {
    var text := if date.Some? then DateText(date.value) else "";
    var parts := Split(text, '.');
    var year := if text != "" && |parts| == 3 then parts[2] else lastYear;
    var text' := if text != "" && |parts| == 2 && year != "" then text + "." + year + Note else text;
    (if text' != "" then text' else Unknown, year)
  }

  /** The groups of a date, in the order they are written. */
  function DateParts(d: DateMatch): seq<string> {
    [d.day, d.month] + if d.year.Some? then [d.year.value] else []
  }

  /** A well-formed date splits on its dots into day, month and, when captured, year. */
  lemma DateSplit(d: DateMatch)
    requires WellFormedDate(d)
    ensures Split(DateText(d), '.') == DateParts(d)
  {
    var parts := DateParts(d);
    DigitsHaveNoDot(d.day);
    DigitsHaveNoDot(d.month);
    if d.year.Some? {
      DigitsHaveNoDot(d.year.value);
      assert parts[1..][1..] == [d.year.value];
      assert Join(parts[1..], '.') == d.month + ['.'] + d.year.value;
      assert DateText(d) == d.day + ['.'] + (d.month + ['.'] + d.year.value);
    } else {
      assert parts[1..] == [d.month];
      assert DateText(d) == Join(parts, '.');
    }
    SplitJoin(parts, '.');
  }

  lemma DigitsHaveNoDot(x: string)
    requires AllDigits(x)
    ensures '.' !in x
  {
    assert forall k :: 0 <= k < |x| ==> IsDigit(x[k]);
  }

  /**
   * The date field and the remembered year: a captured year is kept in the
   * date and remembered; a date without one gets the remembered year and the
   * note; no date at all gives `Unknown` and leaves the year alone.
   */
  lemma {:induction false} DateAndYear(date: Option<DateMatch>, lastYear: string)
    requires date.Some? ==> WellFormedDate(date.value)
    ensures var r := DateField(date, lastYear);
            && (date.None? ==> r == (Unknown, lastYear))
            && (date.Some? && date.value.year.Some? ==>
                  r == (DateText(date.value), date.value.year.value))
            && (date.Some? && date.value.year.None? && lastYear != "" ==>
                  r == (date.value.day + "." + date.value.month + "." + lastYear + Note, lastYear))
            && (date.Some? && date.value.year.None? && lastYear == "" ==>
                  r == (DateText(date.value), lastYear))
  {
    if date.Some? {
      var d := date.value;
      DateSplit(d);
      assert DateText(d)[0] == d.day[0];
      if d.year.None? {
        assert DateText(d) == d.day + "." + d.month;
      }
    }
  }

  /** A start time is reported only with a date, and an end time only with a start time. */
  lemma TimesNeedDate(data: string, lastYear: string)
    requires FindWeekdayResult(data, lastYear).0.Some?
    ensures var r := FindWeekdayResult(data, lastYear).0.value;
            && (r.timeEnd != Unknown ==> r.timeStart != Unknown && IsClock(r.timeEnd))
            && (r.timeStart != Unknown ==> r.date != Unknown && IsClock(r.timeStart))
  {
    var c := DaySearch(data).value;
    assert !IsDigit(Unknown[0]);
    DateAndYear(c.date, lastYear);
  }

  /** The weekday reported is the name that occurs first in the notice, as written there. */
  lemma WeekdayIsFirstName(data: string)
    requires DaySearch(data).Some?
    ensures exists p :: FirstNameAt(data, p, DaySearch(data).value.weekday)
  {
    var p := LocateWeekday(data).value;
    assert DaySearch(data).value.weekday == WeekdayTextAt(data, p);
    FirstNameFromLocate(data, p, WeekdayTextAt(data, p));
  }

  /** The weekday reported is one of the seven names, as written in the notice but for case. */
  lemma WeekdayIsName(data: string)
    requires DaySearch(data).Some?
    ensures LowerStr(DaySearch(data).value.weekday) in Weekdays
  {
    var p := LocateWeekday(data).value;
    assert DaySearch(data).value.weekday == WeekdayTextAt(data, p);
    WeekdayTextIsName(data, p);
  }

  lemma FirstNameFromLocate(s: string, p: nat, w: string)
    requires LocateWeekday(s) == Some(p)
    requires Past(p, w) <= |s| && w == s[p..p + |w|]
    ensures FirstNameAt(s, p, w)
  {
    var r := LocateWeekday(s);
    assert NameAt(s, r.value);
    assert forall q :: 0 <= q < r.value ==> !NameAt(s, q);
  }

  /** `w` is the text at `p`, a weekday name starts there, and none starts earlier. */
  ghost predicate FirstNameAt(data: string, p: nat, w: string) {
    && p + |w| <= |data| && w == data[p..p + |w|] && NameAt(data, p)
    && forall q :: 0 <= q < p ==> !NameAt(data, q)
  }

  /** A remembered year of four digits stays one: the only years stored are captured ones. */
  lemma YearStaysFourDigits(data: string, lastYear: string)
    requires |lastYear| == 4 && AllDigits(lastYear)
    ensures var y := FindWeekdayResult(data, lastYear).1;
            |y| == 4 && AllDigits(y)
  {
    if DaySearch(data).Some? {
      DateAndYear(DaySearch(data).value.date, lastYear);
    }
  }

  /**
   * `last_valid_year` and `rejected_entries`, the state `find_weekday` keeps
   * between calls, as the fields of one object.
   */
  class WeekdayFinder {
    var lastValidYear: string
    var rejectedEntries: seq<string>

    /** The remembered year is always four digits, so the `last_valid_year` test never fails. */
    ghost predicate Valid()
      reads this
    {
      |lastValidYear| == 4 && AllDigits(lastValidYear)
    }

    constructor ()
      ensures Valid()
      ensures lastValidYear == InitialYear && rejectedEntries == []
    {
      lastValidYear := InitialYear;
      rejectedEntries := [];
    }

    /**
     * The date group of `find_weekday`: split on dots, a third part becomes
     * the remembered year, two parts get the remembered year and the note.
     */
    method UpdateDate(d: Option<DateMatch>) returns (date: string)
      modifies this
      ensures (date, lastValidYear) == DateField(d, old(lastValidYear))
      ensures rejectedEntries == old(rejectedEntries)
    {
      date := if d.Some? then DateText(d.value) else "";
      var parts := Split(date, '.');
      if date != "" && |parts| == 3 {
        lastValidYear := parts[2];
      }
      if date != "" && |parts| == 2 && lastValidYear != "" {
        date := date + "." + lastValidYear + Note;
      }
      if date == "" {
        date := Unknown;
      }
    }

    /**
     * `find_weekday`: the record of the notice, or None after the notice is
     * added to the rejected entries; the remembered year follows the
     * notice's date.
     */
    method FindWeekday(data: string) returns (result: Option<DayRecord>)
      requires Valid()
      modifies this
      ensures Valid()
      ensures (result, lastValidYear) == FindWeekdayResult(data, old(lastValidYear))
      ensures rejectedEntries == old(rejectedEntries) + (if result.None? then [data] else [])
    {
      var m := DaySearch(data);
      if m.Some? {
        var c := m.value;
        ghost var before := lastValidYear;
        ResultOfMatch(data, before, c);
        YearStaysFourDigits(data, before);
        var timeStart := TimeField(c.timeStart);
        var timeEnd := TimeField(c.timeEnd);
        var tags := MessageField(c.tail);
        var date := UpdateDate(c.date);
        result := Some(DayRecord(c.weekday, date, timeStart, timeEnd, tags));
      } else {
        rejectedEntries := rejectedEntries + [data];
        result := None;
      }
    }
  }
}
