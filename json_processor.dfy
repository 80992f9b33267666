/**
 * `process_data` and `raw_processor` (processors/json_processor.py:27-120):
 * one notice becomes an outage record (weekday, date parts, inferred year,
 * times, keyword tags and location), and a batch is processed in order while
 * the remembered year and month are threaded from one notice to the next.
 */
module JsonProcessor {
  import opened Text
  import opened Wrappers
  import opened Tokens
  import opened MainPattern
  import opened Keywords
  import opened Cities

  /** The year reported when no year has been seen yet. */
  const DefaultYear: string := "2025"

  /**
   * The state threaded through a batch: `last_valid_year` (None until a notice
   * gives a year) and `int(last_valid_month)`.
   */
  datatype State = State(lastYear: Option<string>, lastMonth: int)

  /** The state `raw_processor` starts from by default: no year, month 12. */
  const InitialState: State := State(None, 12)

  /** Python's truthiness of `last_valid_year`: present and not the empty string. */
  predicate HasYear(st: State) { st.lastYear.Some? && st.lastYear.value != "" }

  /** A remembered year is a string `int()` accepts; the parser only ever stores four digits. */
  predicate ValidState(st: State) { HasYear(st) ==> AllDigits(st.lastYear.value) }

  /** One processed notice, with the keys of the dictionary `process_data` returns. */
  datatype OutageRecord = OutageRecord(
    weekday: string,
    day: string,
    month: string,
    year: string,
    timeStart: Option<string>,
    timeEnd: string,
    tags: seq<string>,
    location: Option<string>)

  // ---------------------------------------------------------------------
  // Year inference
  // ---------------------------------------------------------------------

  /**
   * The year reported for a notice and the state after it. A captured year is
   * reported as it is and remembered with the month. Without one, the
   * remembered year is reported with the note, one less when the notice's
   * month is later than the remembered month (the notice must then be from
   * the year before); with no remembered year the bare default is reported.
   */
  function ResolveYear(month: string, year: Option<string>, st: State): (r: (string, State))
    requires AllDigits(month) && ValidState(st)
    ensures year.Some? ==> r == (year.value, State(year, ParseNat(month)))
    ensures year.None? ==> r.1 == st
  {
    match year
    case Some(y) => (y, State(Some(y), ParseNat(month)))
    case None =>
      if HasYear(st) && ParseNat(month) > st.lastMonth then
        (IntToString(ParseNat(st.lastYear.value) - 1) + Note, st)
      else if HasYear(st) then
        (st.lastYear.value + Note, st)
      else
        (DefaultYear, st)
  }

  /** Without a captured year, the report is the remembered year or the one before it, with the note, or else the bare default. */
  lemma MissingYear(month: string, st: State)
    requires AllDigits(month) && ValidState(st)
    ensures var r := ResolveYear(month, None, st);
            && r.1 == st
            && (!HasYear(st) ==> r.0 == DefaultYear)
            && (HasYear(st) && ParseNat(month) > st.lastMonth ==>
                  r.0 == IntToString(ParseNat(st.lastYear.value) - 1) + Note)
            && (HasYear(st) && ParseNat(month) <= st.lastMonth ==> r.0 == st.lastYear.value + Note)
  {
  }

  /** A reported year is the captured four digits, or ends with the note, or is the bare default. */
  lemma ReportedYearShape(month: string, year: Option<string>, st: State)
    requires AllDigits(month) && ValidState(st)
    ensures var y := ResolveYear(month, year, st).0;
            || (year.Some? && y == year.value)
            || (year.None? && |y| > |Note| && y[|y| - |Note|..] == Note)
            || (year.None? && !HasYear(st) && y == DefaultYear)
  {
    if year.None? && HasYear(st) {
      var y := ResolveYear(month, year, st).0;
      var prefix := if ParseNat(month) > st.lastMonth then IntToString(ParseNat(st.lastYear.value) - 1)
                    else st.lastYear.value;
      assert y == prefix + Note;
      assert y[|y| - |Note|..] == Note;
    }
  }

  /** A notice in November followed by an undated one in March stays in the same year. */
  lemma NovemberThenMarchStays(y: string)
    requires y == "2024"
    ensures ResolveYear("3", None, ResolveYear("11", Some(y), InitialState).1).0 == "2024" + Note
  {
    assert ParseNat("11") == 11;
    assert ParseNat("3") == 3;
  }

  /** A notice in March followed by an undated one in November belongs to the year before. */
  lemma MarchThenNovemberRollsBack(y: string)
    requires y == "2024"
    ensures ResolveYear("11", None, ResolveYear("3", Some(y), InitialState).1).0 == "2023" + Note
  {
    assert ParseNat("11") == 11;
    assert ParseNat("3") == 3;
    assert y[..3] == "202" && "202"[..2] == "20" && "20"[..1] == "2" && "2"[..0] == "";
    assert ParseNat(y) == 2024;
    assert NatToString(2023) == "2023";
  }

  // ---------------------------------------------------------------------
  // One notice
  // ---------------------------------------------------------------------

  /** The shape of every record `process_data` returns. */
  predicate WellFormedRecord(r: OutageRecord, entry: string, cities: seq<string>) {
    && LowerStr(r.weekday) in Weekdays
    && 1 <= |r.day| <= 2 && AllDigits(r.day)
    && 1 <= |r.month| <= 2 && AllDigits(r.month)
    && (r.timeStart.Some? ==> IsClock(r.timeStart.value))
    && (r.timeEnd == Unknown || IsClock(r.timeEnd))
    && (forall t :: t in r.tags ==> IsKeyword(t) && t != [] && AllWordChars(t))
    && r.location == Location(entry, cities)
  }

  /**
   * `process_data` as a function of the notice, the city list and the state:
   * the record (None when the pattern finds no match) and the state after.
   */
  function ProcessEntry(entry: string, cities: seq<string>, st: State): (r: (Option<OutageRecord>, State))
    requires ValidState(st)
    ensures r.0.None? <==> forall p :: 0 <= p < |entry| ==> !AnchorAt(entry, p)
    ensures r.0.None? ==> r.1 == st
    ensures r.0.Some? ==> WellFormedRecord(r.0.value, entry, cities)
  {
    match Search(entry)
    case None => (None, st)
    case Some(c) =>
      var year := ResolveYear(c.month, c.year, st);
      var message := Strip(c.tail);
      var record := OutageRecord(
        c.weekday, c.day, c.month, year.0,
        c.timeStart,
        if c.timeEnd.Some? then c.timeEnd.value else Unknown,
        FilterPrefixKeywords(message),
        Location(entry, cities));
      (Some(record), year.1)
  }

  /** A captured year is reported as it is and becomes the remembered year, with the notice's month. */
  lemma ExplicitYearIsRemembered(entry: string, cities: seq<string>, st: State)
    requires ValidState(st) && Search(entry).Some? && Search(entry).value.year.Some?
    ensures var c := Search(entry).value;
            var r := ProcessEntry(entry, cities, st);
            && r.0.Some? && r.0.value.year == c.year.value
            && r.1 == State(c.year, ParseNat(c.month))
  {
  }

  /** Without a captured year the state is left as it was. */
  lemma MissingYearKeepsState(entry: string, cities: seq<string>, st: State)
    requires ValidState(st) && (Search(entry).None? || Search(entry).value.year.None?)
    ensures ProcessEntry(entry, cities, st).1 == st
  {
  }

  /**
   * The fields of a record come from the match: the groups as captured, an
   * absent start time as None but an absent end time as `Unknown`, the tags
   * from the stripped message, and the location from the whole notice.
   */
  lemma RecordFields(entry: string, cities: seq<string>, st: State)
    requires ValidState(st) && Search(entry).Some?
    ensures var c := Search(entry).value;
            var r := ProcessEntry(entry, cities, st).0.value;
            && r.weekday == c.weekday && r.day == c.day && r.month == c.month
            && r.timeStart == c.timeStart
            && (c.timeEnd.None? <==> r.timeEnd == Unknown)
            && (c.timeEnd.Some? ==> r.timeEnd == c.timeEnd.value)
            && r.tags == Filter(Words(Strip(c.tail)), IsKeyword)
            && r.year == ResolveYear(c.month, c.year, st).0
  {
    var c := Search(entry).value;
    if c.timeEnd.Some? {
      assert c.timeEnd.value != Unknown by {
        assert IsClock(c.timeEnd.value);
        assert !IsDigit(Unknown[0]);
      }
    }
  }

  /** The state stays one `int()` can read. */
  lemma ProcessEntryKeepsStateValid(entry: string, cities: seq<string>, st: State)
    requires ValidState(st)
    ensures ValidState(ProcessEntry(entry, cities, st).1)
  {
  }

  /**
   * `process_data`: match the pattern, infer the year, collect the tags and
   * search for the city; None and the unchanged state when nothing matches.
   */
  method ProcessData(entry: string, cities: seq<string>, st: State) returns (record: Option<OutageRecord>, st': State)
    requires ValidState(st)
    ensures (record, st') == ProcessEntry(entry, cities, st)
  {
    var m := Search(entry);
    if m.None? {
      return None, st;
    }
    var c := m.value;
    var yearOutput: string;
    yearOutput, st' := ResolveYear(c.month, c.year, st).0, ResolveYear(c.month, c.year, st).1;
    var message := Strip(c.tail);
    var tags := FilterPrefixKeywords(message);
    var timeEnd := if c.timeEnd.Some? then c.timeEnd.value else Unknown;
    var location := MatchLocation(entry, cities);
    record := Some(OutageRecord(c.weekday, c.day, c.month, yearOutput, c.timeStart, timeEnd, tags, location));
  }

  // ---------------------------------------------------------------------
  // A batch
  // ---------------------------------------------------------------------

  /** The records of the matched notices, in order, and the final state: `raw_processor` as a left fold. */
  function Run(entries: seq<string>, cities: seq<string>, st: State): (r: (seq<OutageRecord>, State))
    requires ValidState(st)
    ensures ValidState(r.1)
    decreases |entries|
  {
    if entries == [] then ([], st)
    else RunStep(Run(entries[..|entries| - 1], cities, st), entries[|entries| - 1], cities)
  }

  /** One call of `process_data` on `e` after the records and state `acc`. */
  function RunStep(acc: (seq<OutageRecord>, State), e: string, cities: seq<string>): (r: (seq<OutageRecord>, State))
    requires ValidState(acc.1)
    ensures ValidState(r.1)
  {
    var step := ProcessEntry(e, cities, acc.1);
    ProcessEntryKeepsStateValid(e, cities, acc.1);
    (acc.0 + (if step.0.Some? then [step.0.value] else []), step.1)
  }

  /** Processing one more notice: its record, if any, goes at the end. */
  lemma RunSnoc(entries: seq<string>, e: string, cities: seq<string>, st: State)
    requires ValidState(st)
    ensures Run(entries + [e], cities, st) == RunStep(Run(entries, cities, st), e, cities)
  {
    assert (entries + [e])[..|entries + [e]| - 1] == entries;
  }

  /** Processing the first `i + 1` notices is processing the first `i`, then notice `i`. */
  lemma RunPrefix(entries: seq<string>, i: nat, cities: seq<string>, st: State)
    requires i < |entries| && ValidState(st)
    ensures Run(entries[..i + 1], cities, st) == RunStep(Run(entries[..i], cities, st), entries[i], cities)
  {
    TakeOneMore(entries, i);
    RunSnoc(entries[..i], entries[i], cities, st);
  }

  /** At most one record per notice. */
  lemma {:induction false} RunLength(entries: seq<string>, cities: seq<string>, st: State)
    requires ValidState(st)
    ensures |Run(entries, cities, st).0| <= |entries|
    decreases |entries|
  {
    if entries != [] {
      RunLength(entries[..|entries| - 1], cities, st);
    }
  }

  /** Processing `a + b` is processing `a`, then `b` from the state `a` left. */
  lemma {:induction false} RunAppend(a: seq<string>, b: seq<string>, cities: seq<string>, st: State)
    requires ValidState(st)
    ensures var ra := Run(a, cities, st);
            var rb := Run(b, cities, ra.1);
            Run(a + b, cities, st) == (ra.0 + rb.0, rb.1)
    decreases |b|
  {
    if b == [] {
      assert a + b == a;
      assert Run(a, cities, st).0 + [] == Run(a, cities, st).0;
    } else {
      var b' := b[..|b| - 1];
      var e := b[|b| - 1];
      SplitLast(a, b);
      RunAppend(a, b', cities, st);
      RunAppendStep(a, b', e, cities, st);
    }
  }

  /** The inductive step of `RunAppend`: one more notice at the end of `b`. */
  lemma RunAppendStep(a: seq<string>, b: seq<string>, e: string, cities: seq<string>, st: State)
    requires ValidState(st)
    requires Run(a + b, cities, st) == (Run(a, cities, st).0 + Run(b, cities, Run(a, cities, st).1).0,
                                       Run(b, cities, Run(a, cities, st).1).1)
    ensures var ra := Run(a, cities, st);
            var rb := Run(b + [e], cities, ra.1);
            Run((a + b) + [e], cities, st) == (ra.0 + rb.0, rb.1)
  {
    var ra := Run(a, cities, st);
    var rb := Run(b, cities, ra.1);
    RunSnoc(a + b, e, cities, st);
    RunSnoc(b, e, cities, ra.1);
    var step := ProcessEntry(e, cities, rb.1);
    var extra := if step.0.Some? then [step.0.value] else [];
    AppendAssoc(ra.0, rb.0, extra);
  }

  /** A notice the pattern does not match adds no record and leaves the state alone. */
  lemma UnmatchedContributesNothing(entries: seq<string>, e: string, cities: seq<string>, st: State)
    requires ValidState(st) && forall p :: 0 <= p < |e| ==> !AnchorAt(e, p)
    ensures Run(entries + [e], cities, st) == Run(entries, cities, st)
  {
    RunSnoc(entries, e, cities, st);
    assert Run(entries, cities, st).0 + [] == Run(entries, cities, st).0;
  }

  /** The year a batch leaves behind: that of the last notice with a captured year, or the year before the batch. */
  function LastCapturedYear(entries: seq<string>, fallback: Option<string>): Option<string>
    decreases |entries|
  {
    if entries == [] then fallback
    else
      var e := entries[|entries| - 1];
      match Search(e)
      case Some(c) =>
        if c.year.Some? then c.year else LastCapturedYear(entries[..|entries| - 1], fallback)
      case None => LastCapturedYear(entries[..|entries| - 1], fallback)
  }

  /** The remembered year after a batch is the year of its last notice that gave one. */
  lemma {:induction false} RunRemembersLastYear(entries: seq<string>, cities: seq<string>, st: State)
    requires ValidState(st)
    ensures Run(entries, cities, st).1.lastYear == LastCapturedYear(entries, st.lastYear)
    decreases |entries|
  {
    if entries != [] {
      RunRemembersLastYear(entries[..|entries| - 1], cities, st);
    }
  }

  /** Every record of a batch has the shape of a record of one of its notices. */
  lemma {:induction false} RunRecordsWellFormed(entries: seq<string>, cities: seq<string>, st: State)
    requires ValidState(st)
    ensures forall r :: r in Run(entries, cities, st).0 ==> exists e :: e in entries && WellFormedRecord(r, e, cities)
    decreases |entries|
  {
    if entries != [] {
      var init := entries[..|entries| - 1];
      RunRecordsWellFormed(init, cities, st);
      forall r | r in Run(entries, cities, st).0 ensures exists e :: e in entries && WellFormedRecord(r, e, cities) {
        if r in Run(init, cities, st).0 {
          var e :| e in init && WellFormedRecord(r, e, cities);
          assert e in entries;
        } else {
          assert entries[|entries| - 1] in entries;
        }
      }
    }
  }

  /** An empty batch gives no records and leaves the state alone. */
  lemma RunEmpty(cities: seq<string>, st: State)
    requires ValidState(st)
    ensures Run([], cities, st) == ([], st)
  {
  }

  /**
   * `raw_processor`: process the notices in order, threading the state, and
   * keep the records of those that matched.
   */
  method RawProcessor(rawData: seq<string>, cities: seq<string>, st0: State) returns (interimData: seq<OutageRecord>)
    requires ValidState(st0)
    ensures interimData == Run(rawData, cities, st0).0
  {
    interimData := [];
    var st := st0;
    ghost var run := Run([], cities, st0);
    var i := 0;
    while i < |rawData|
      invariant 0 <= i <= |rawData|
      invariant ValidState(st)
      invariant run == Run(rawData[..i], cities, st0)
      invariant interimData == run.0 && st == run.1
    {
      RunPrefix(rawData, i, cities, st0);
      var processedEntry;
      processedEntry, st := ProcessData(rawData[i], cities, st);
      if processedEntry.Some? {
        interimData := interimData + [processedEntry.value];
      }
      run := RunStep(run, rawData[i], cities);
      i := i + 1;
    }
    assert rawData[..i] == rawData;
  }
}
