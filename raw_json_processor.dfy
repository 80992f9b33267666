/**
 * `raw_processor1` (processors/raw_json_processor.py:3-12): run
 * `find_weekday` over a batch of notices in order and keep the records it
 * returns. The remembered year and the rejected notices are the state of the
 * `WeekdayFinder` the batch runs against.
 */
module RawJsonProcessor {
  import opened Text
  import opened Wrappers
  import opened Tokens
  import opened DayProcessor

  /**
   * The batch as a left fold of `find_weekday`: the records, the remembered
   * year afterwards, and the notices rejected along the way, in order.
   */
  function DayRun(entries: seq<string>, lastYear: string): (r: (seq<DayRecord>, string, seq<string>))
    decreases |entries|
  {
    if entries == [] then ([], lastYear, [])
    else DayStep(DayRun(entries[..|entries| - 1], lastYear), entries[|entries| - 1])
  }

  /** One call of `find_weekday` on `e` after the records, year and rejected list `acc`. */
  function DayStep(acc: (seq<DayRecord>, string, seq<string>), e: string): (seq<DayRecord>, string, seq<string>) {
    var step := FindWeekdayResult(e, acc.1);
    (acc.0 + (if step.0.Some? then [step.0.value] else []),
     step.1,
     acc.2 + (if step.0.None? then [e] else []))
  }

  /** Processing one more notice. */
  lemma DayRunSnoc(entries: seq<string>, e: string, lastYear: string)
    ensures DayRun(entries + [e], lastYear) == DayStep(DayRun(entries, lastYear), e)
  {
    assert (entries + [e])[..|entries + [e]| - 1] == entries;
  }

  /** Processing the first `i + 1` notices of a batch is processing the first `i`, then notice `i`. */
  lemma DayRunPrefix(entries: seq<string>, i: nat, lastYear: string)
    requires i < |entries|
    ensures DayRun(entries[..i + 1], lastYear) == DayStep(DayRun(entries[..i], lastYear), entries[i])
  {
    TakeOneMore(entries, i);
    DayRunSnoc(entries[..i], entries[i], lastYear);
  }

  /** Every notice gives either one record or one rejected entry. */
  lemma {:induction false} DayRunCounts(entries: seq<string>, lastYear: string)
    ensures var r := DayRun(entries, lastYear);
            |r.0| + |r.2| == |entries|
    decreases |entries|
  {
    if entries != [] {
      DayRunCounts(entries[..|entries| - 1], lastYear);
    }
  }

  /** No weekday name anywhere in the notice. */
  ghost predicate NoName(e: string) {
    forall p :: 0 <= p < |e| ==> !NameAt(e, p)
  }

  /** Reference definition of the rejected notices: those without a weekday name, in order. */
  ghost function Unmatched(entries: seq<string>): seq<string>
    decreases |entries|
  {
    if entries == [] then []
    else
      var e := entries[|entries| - 1];
      Unmatched(entries[..|entries| - 1]) + (if NoName(e) then [e] else [])
  }

  /**
   * The notices a batch rejects are exactly those without a weekday name,
   * whatever the remembered year was.
   */
  lemma {:induction false} DayRunRejectsUnmatched(entries: seq<string>, lastYear: string)
    ensures DayRun(entries, lastYear).2 == Unmatched(entries)
    decreases |entries|
  {
    if entries != [] {
      DayRunRejectsUnmatched(entries[..|entries| - 1], lastYear);
    }
  }

  /** The rejected notices are notices of the batch, and every notice without a name is among them. */
  lemma {:induction false} UnmatchedMembers(entries: seq<string>)
    ensures forall e :: e in Unmatched(entries) <==> e in entries && NoName(e)
    decreases |entries|
  {
    if entries != [] {
      var init := entries[..|entries| - 1];
      var last := entries[|entries| - 1];
      UnmatchedMembers(init);
      assert entries == init + [last];
    }
  }

  /** The year a batch leaves behind: that of the last notice whose date gave one, or the year before the batch. */
  ghost function LastDatedYear(entries: seq<string>, fallback: string): string
    decreases |entries|
  {
    if entries == [] then fallback
    else
      var m := DaySearch(entries[|entries| - 1]);
      if m.Some? && m.value.date.Some? && m.value.date.value.year.Some? then m.value.date.value.year.value
      else LastDatedYear(entries[..|entries| - 1], fallback)
  }

  /** The remembered year after a batch is the year of its last fully dated notice. */
  lemma {:induction false} DayRunRemembersLastYear(entries: seq<string>, lastYear: string)
    ensures DayRun(entries, lastYear).1 == LastDatedYear(entries, lastYear)
    decreases |entries|
  {
    if entries != [] {
      var init := entries[..|entries| - 1];
      var e := entries[|entries| - 1];
      DayRunRemembersLastYear(init, lastYear);
      if DaySearch(e).Some? {
        DateAndYear(DaySearch(e).value.date, DayRun(init, lastYear).1);
      }
    }
  }

  /** A notice without a weekday name adds no record, leaves the year alone and is rejected. */
  lemma UnmatchedIsRejected(entries: seq<string>, e: string, lastYear: string)
    requires NoName(e)
    ensures var before := DayRun(entries, lastYear);
            DayRun(entries + [e], lastYear) == (before.0, before.1, before.2 + [e])
  {
    DayRunSnoc(entries, e, lastYear);
    assert DayRun(entries, lastYear).0 + [] == DayRun(entries, lastYear).0;
  }

  /**
   * A notice whose date has no year gets the year of the last earlier notice
   * in the batch whose date had one, or the year the batch started with.
   */
  lemma TwoPartDateGetsLastYear(entries: seq<string>, e: string, lastYear: string)
    requires |lastYear| == 4 && AllDigits(lastYear)
    requires DaySearch(e).Some? && DaySearch(e).value.date.Some? && DaySearch(e).value.date.value.year.None?
    ensures var d := DaySearch(e).value.date.value;
            var r := DayRun(entries + [e], lastYear);
            && |r.0| > 0
            && r.0[|r.0| - 1].date == d.day + "." + d.month + "." + LastDatedYear(entries, lastYear) + Note
  {
    DayRunSnoc(entries, e, lastYear);
    DayRunRemembersLastYear(entries, lastYear);
    DayRunKeepsYearValid(entries, lastYear);
    var y := DayRun(entries, lastYear).1;
    DateAndYear(DaySearch(e).value.date, y);
    ResultOfMatch(e, y, DaySearch(e).value);
  }

  /** An empty batch gives no records, keeps the year and rejects nothing. */
  lemma DayRunEmpty(lastYear: string)
    ensures DayRun([], lastYear) == ([], lastYear, [])
  {
  }

  /** A year of four digits stays one through a batch. */
  lemma {:induction false} DayRunKeepsYearValid(entries: seq<string>, lastYear: string)
    requires |lastYear| == 4 && AllDigits(lastYear)
    ensures |DayRun(entries, lastYear).1| == 4 && AllDigits(DayRun(entries, lastYear).1)
    decreases |entries|
  {
    if entries != [] {
      var init := entries[..|entries| - 1];
      DayRunKeepsYearValid(init, lastYear);
      YearStaysFourDigits(entries[|entries| - 1], DayRun(init, lastYear).1);
    }
  }

  /**
   * `raw_processor1`: call `find_weekday` on each notice in order and append
   * the records it returns; the finder's year and rejected list change as
   * the calls change them.
   */
  method RawProcessor1(finder: WeekdayFinder, rawData: seq<string>) returns (interimData: seq<DayRecord>)
    requires finder.Valid()
    modifies finder
    ensures finder.Valid()
    ensures interimData == DayRun(rawData, old(finder.lastValidYear)).0
    ensures finder.lastValidYear == DayRun(rawData, old(finder.lastValidYear)).1
    ensures finder.rejectedEntries == old(finder.rejectedEntries) + DayRun(rawData, old(finder.lastValidYear)).2
  {
    ghost var year0 := finder.lastValidYear;
    ghost var rejected0 := finder.rejectedEntries;
    ghost var run := DayRun([], year0);
    interimData := [];
    var i := 0;
    while i < |rawData|
      invariant 0 <= i <= |rawData|
      invariant finder.Valid()
      invariant run == DayRun(rawData[..i], year0)
      invariant interimData == run.0
      invariant finder.lastValidYear == run.1
      invariant finder.rejectedEntries == rejected0 + run.2
    {
      ghost var step := FindWeekdayResult(rawData[i], run.1);
      DayRunPrefix(rawData, i, year0);
      var processedEntry := finder.FindWeekday(rawData[i]);
      if processedEntry.Some? {
        interimData := interimData + [processedEntry.value];
      }
      AppendAssoc(rejected0, run.2, if step.0.None? then [rawData[i]] else []);
      run := DayStep(run, rawData[i]);
      i := i + 1;
    }
    assert rawData[..i] == rawData;
  }
}
