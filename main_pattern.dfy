/**
 * The pattern `process_data` searches for (processors/json_processor.py:29-47),
 * case-insensitively:
 *
 *   .*? (?:tänään\s+)? (weekday) \s* (\d{1,2}) \. (\d{1,2}) (?:\.(\d{4}))? \s* \.?
 *   (?: \s* (?:kello|klo) \s* (clock)? [–-]* (clock)? )? \s* (.*)
 *
 * Everything after the month is optional and the pattern ends in `(.*)`, so
 * a match exists at a weekday exactly when the mandatory part (name,
 * whitespace, `d.m`) is there, and each optional part is then taken the first
 * way it can be. `re.search` reports the leftmost such weekday: the lazy
 * `.*?` tries positions left to right, and the non-capturing `tänään\s+`
 * only moves where the match starts, never what the groups capture (no
 * weekday name can begin inside it).
 */
module MainPattern {
  import opened Text
  import opened Wrappers
  import opened Tokens

  /** The seven groups of one match, `(.*)` not yet stripped. */
  datatype Captures = Captures(
    weekday: string,
    day: string,
    month: string,
    year: Option<string>,
    timeStart: Option<string>,
    timeEnd: Option<string>,
    tail: string)

  /** What the optional time block captured and where it stopped. */
  datatype TimeBlock = TimeBlock(start: Option<string>, end: Option<string>, stop: nat)

  /** The separator class `[–-]` (en dash and hyphen). */
  predicate IsDash(c: char) { c == '-' || c == '\U{2013}' }

  /** End of the dash run at `i`: where a greedy `[–-]*` stops. */
  function DashesEnd(s: string, i: nat): (j: nat)
    requires i <= |s|
    ensures i <= j <= |s|
    ensures forall k {:trigger IsDash(s[k])} :: i <= k < j ==> IsDash(s[k])
    ensures j == |s| || !IsDash(s[j])
    decreases |s| - i
  {
    if i < |s| && IsDash(s[i]) then DashesEnd(s, i + 1) else i
  }

  /** `(?:kello|klo)` at `i`, ignoring case: where the marker ends. */
  function MarkerAt(s: string, i: nat): (r: Option<nat>)
    ensures r.Some? <==> StartsWithCI(s, i, "kello") || StartsWithCI(s, i, "klo")
    ensures r.Some? ==> r.value <= |s|
    ensures r.Some? ==> r.value == i + if StartsWithCI(s, i, "kello") then 5 else 3
  {
    if StartsWithCI(s, i, "kello") then Some(i + 5)
    else if StartsWithCI(s, i, "klo") then Some(i + 3)
    else None
  }

  /** An optional clock-time group at `i`: what it captures and where it stops. */
  function OptionalClock(s: string, i: nat): (r: (Option<string>, nat))
    requires i <= |s|
    ensures ClockOrNone(s, i, r.0) && r.1 == i + Len(r.0) <= |s|
    ensures r.0.Some? ==> IsClock(r.0.value)
  {
    match ClockAt(s, i)
    case None => (None, i)
    case Some(n) => (Some(s[i..i + n]), i + n)
  }

  /**
   * Reference reading of `\s*(clock)?[–-]*(clock)?` after a time marker
   * ending at `m`: the start is the clock time Python's engine reads after
   * the whitespace, if a digit is there, and the end the one it reads after
   * the run of dashes that follows the start.
   */
  predicate BlockReading(s: string, m: nat, start: Option<string>, end: Option<string>)
    requires m <= |s|
  {
    var q := SkipSpaces(s, m);
    && ClockOrNone(s, q, start) && q + Len(start) <= |s|
    && ClockOrNone(s, DashesEnd(s, q + Len(start)), end)
  }

  /** Where a block read after the marker ending at `m` stops: right after its end time. */
  function BlockStop(s: string, m: nat, start: Option<string>, end: Option<string>): (stop: nat)
    requires m <= |s| && BlockReading(s, m, start, end)
    ensures m <= stop <= |s|
  {
    DashesEnd(s, SkipSpaces(s, m) + Len(start)) + Len(end)
  }

  /**
   * `\s*(?:kello|klo)\s*(clock)?[–-]*(clock)?` at `i`: present exactly when a
   * time marker follows the whitespace; both clock times are optional. The
   * start is the clock read after the marker and its whitespace, the end the
   * clock read after the run of dashes that follows the start, and the block
   * stops after the end.
   */
  function TimeBlockAt(s: string, i: nat): (r: Option<TimeBlock>)
    requires i <= |s|
    ensures r.Some? <==> MarkerAt(s, SkipSpaces(s, i)).Some?
    ensures r.Some? ==> var m := MarkerAt(s, SkipSpaces(s, i)).value;
      && BlockReading(s, m, r.value.start, r.value.end)
      && r.value.stop == BlockStop(s, m, r.value.start, r.value.end)
    ensures r.Some? ==> i <= r.value.stop <= |s|
    ensures r.Some? && r.value.start.Some? ==> IsClock(r.value.start.value)
    ensures r.Some? && r.value.end.Some? ==> IsClock(r.value.end.value)
  {
    match MarkerAt(s, SkipSpaces(s, i))
    case None => None
    case Some(m) =>
      var start := OptionalClock(s, SkipSpaces(s, m));
      var end := OptionalClock(s, DashesEnd(s, start.1));
      Some(TimeBlock(start.0, end.0, end.1))
  }

  /** The captured groups are each of the shape their group allows. */
  predicate WellFormed(c: Captures) {
    && LowerStr(c.weekday) in Weekdays
    && WellFormedDate(DateMatch(c.day, c.month, c.year, 0))
    && (c.timeStart.Some? ==> IsClock(c.timeStart.value))
    && (c.timeEnd.Some? ==> IsClock(c.timeEnd.value))
    && '\n' !in c.tail
  }

  /**
   * The mandatory part at `p`: a weekday name, the whitespace after it (a
   * greedy `\s*` that never needs to give any back) and `\d{1,2}\.\d`.
   */
  predicate MandatoryAt(s: string, p: nat) {
    match WeekdayAt(s, p)
    case None => false
    case Some(n) => DayMonthAt(s, SkipSpaces(s, p + n))
  }

  /** Where `\s*\.?` stops: past the whitespace at `i` and one optional dot. */
  function PastDot(s: string, i: nat): (e1: nat)
    requires i <= |s|
    ensures i <= e1 <= |s|
  {
    var e := SkipSpaces(s, i);
    if e < |s| && s[e] == '.' then e + 1 else e
  }

  /**
   * Reference reading of the groups after a date ending at `i`: past
   * `\s*\.?`, either a time marker follows the whitespace, and the clock
   * times are those read after it and the message the rest of the line after
   * the whitespace that follows the block; or none does, both times are
   * absent and the message is the rest of the line after the whitespace.
   */
  predicate RestGroupsAt(s: string, i: nat, start: Option<string>, end: Option<string>, tail: string)
    requires i <= |s|
  {
    var e := SkipSpaces(s, PastDot(s, i));
    match MarkerAt(s, e)
    case Some(m) =>
      && BlockReading(s, m, start, end)
      && tail == LineFrom(s, SkipSpaces(s, BlockStop(s, m, start, end)))
    case None => start.None? && end.None? && tail == LineFrom(s, e)
  }

  /**
   * Everything after the date: `\s*\.?`, the optional time block, `\s*(.*)`.
   * The block is looked for after the whitespace and an optional dot; the
   * message is the rest of the line after the whitespace that follows the
   * block, or follows the dot when there is no block.
   */
  function TimeAndTail(s: string, i: nat): (r: (Option<string>, Option<string>, string))
    requires i <= |s|
    ensures RestGroupsAt(s, i, r.0, r.1, r.2)
    ensures r.0.Some? ==> IsClock(r.0.value)
    ensures r.1.Some? ==> IsClock(r.1.value)
    ensures '\n' !in r.2
  {
    var e1 := PastDot(s, i);
    var tb := TimeBlockAt(s, e1);
    if tb.Some? then (tb.value.start, tb.value.end, LineFrom(s, SkipSpaces(s, tb.value.stop)))
    else (None, None, LineFrom(s, SkipSpaces(s, e1)))
  }

  /** The date groups of `c` read as a date that starts at `k`. */
  function DateOf(c: Captures, k: nat): (d: DateMatch)
    ensures d.day == c.day && d.month == c.month && d.year == c.year
  {
    DateMatch(c.day, c.month, c.year, DateEnd(k, c.day, c.month, c.year))
  }

  /**
   * Reference reading of what each group of a match at `p` captures: the
   * weekday name as written, the date Python's engine reads after the
   * whitespace that follows it, then the times and the message read after
   * that date.
   */
  predicate GroupsAt(s: string, p: nat, c: Captures) {
    && WeekdayAt(s, p).Some? && c.weekday == WeekdayTextAt(s, p)
    && var d := DateOf(c, SkipSpaces(s, Past(p, c.weekday)));
    && GreedyDate(s, SkipSpaces(s, Past(p, c.weekday)), d)
    && RestGroupsAt(s, d.end, c.timeStart, c.timeEnd, c.tail)
  }

  /**
   * The groups when the pattern is matched with its weekday at `p`. Past the
   * mandatory part nothing can fail, so a match exists exactly when the
   * mandatory part does.
   */
  function MatchAt(s: string, p: nat): (c: Captures)
    requires MandatoryAt(s, p)
    ensures GroupsAt(s, p, c)
    ensures WellFormed(c)
  {
    var w := WeekdayTextAt(s, p);
    WeekdayTextIsName(s, p);
    var d := DateAt(s, SkipSpaces(s, Past(p, w))).value;
    var rest := TimeAndTail(s, d.end);
    Captures(w, d.day, d.month, d.year, rest.0, rest.1, rest.2)
  }

  /** The reading of the groups leaves no choice: at most one set of captures fits it. */
  lemma GroupsAtUnique(s: string, p: nat, c1: Captures, c2: Captures)
    requires GroupsAt(s, p, c1) && GroupsAt(s, p, c2)
    ensures c1 == c2
  {
    var d1 := DateOf(c1, SkipSpaces(s, Past(p, c1.weekday)));
    var d2 := DateOf(c2, SkipSpaces(s, Past(p, c2.weekday)));
    GreedyDateUnique(s, SkipSpaces(s, Past(p, c1.weekday)), SkipSpaces(s, Past(p, c2.weekday)), d1, d2);
    RestGroupsUnique(s, d1.end, d2.end, c1.timeStart, c1.timeEnd, c1.tail, c2.timeStart, c2.timeEnd, c2.tail);
  }

  lemma RestGroupsUnique(s: string, i1: nat, i2: nat, start1: Option<string>, end1: Option<string>, tail1: string,
                         start2: Option<string>, end2: Option<string>, tail2: string)
    requires i1 == i2 <= |s|
    requires RestGroupsAt(s, i1, start1, end1, tail1) && RestGroupsAt(s, i2, start2, end2, tail2)
    ensures start1 == start2 && end1 == end2 && tail1 == tail2
  {
    var e := SkipSpaces(s, PastDot(s, i1));
    match MarkerAt(s, e)
    case Some(m) => BlockUnique(s, m, start1, end1, start2, end2);
    case None =>
  }

  lemma BlockUnique(s: string, m: nat, start1: Option<string>, end1: Option<string>, start2: Option<string>, end2: Option<string>)
    requires m <= |s| && BlockReading(s, m, start1, end1) && BlockReading(s, m, start2, end2)
    ensures start1 == start2 && end1 == end2
  {
    var q := SkipSpaces(s, m);
    ClockOrNoneUnique(s, q, start1, start2);
    ClockOrNoneUnique(s, DashesEnd(s, q + Len(start1)), end1, end2);
  }

  /**
   * Reference reading of the mandatory part: a weekday name at `p` (ignoring
   * case), then any whitespace, then `\d{1,2}\.\d`.
   */
  ghost predicate AnchorAt(s: string, p: nat) {
    exists j :: 0 <= j < |Weekdays| && StartsWithCI(s, p, Weekdays[j]) && DateAfterSpaces(s, p + |Weekdays[j]|)
  }

  ghost predicate DateAfterSpaces(s: string, q: nat) {
    exists k :: q <= k <= |s| && AllSpaces(s, q, k) && DayMonthAt(s, k)
  }

  /** When the scanner's test succeeds, the reference reading holds, with the whitespace `\s*` took. */
  lemma MandatoryImpliesAnchor(s: string, p: nat)
    requires MandatoryAt(s, p)
    ensures AnchorAt(s, p)
  {
    var j := WeekdayIndexAt(s, p).value;
    assert WeekdayAt(s, p) == Some(|Weekdays[j]|);
    NameThenDate(s, p, j);
  }

  lemma NameThenDate(s: string, p: nat, j: nat)
    requires j < |Weekdays| && StartsWithCI(s, p, Weekdays[j])
    requires DayMonthAt(s, SkipSpaces(s, p + |Weekdays[j]|))
    ensures AnchorAt(s, p)
  {
    var q := p + |Weekdays[j]|;
    assert AllSpaces(s, q, SkipSpaces(s, q));
    assert DateAfterSpaces(s, q);
  }

  /** Whatever whitespace the reference reading chose, the greedy `\s*` reaches the same date. */
  lemma AnchorImpliesMandatory(s: string, p: nat)
    requires AnchorAt(s, p)
    ensures MandatoryAt(s, p)
  {
    var j :| 0 <= j < |Weekdays| && StartsWithCI(s, p, Weekdays[j]) && DateAfterSpaces(s, p + |Weekdays[j]|);
    var q := p + |Weekdays[j]|;
    var k :| q <= k <= |s| && AllSpaces(s, q, k) && DayMonthAt(s, k);
    DayMonthNotSpace(s, k);
    SkipSpacesUnique(s, q, k);
    MandatoryFrom(s, p, |Weekdays[j]|, k);
  }

  lemma MandatoryFrom(s: string, p: nat, n: nat, k: nat)
    requires WeekdayAt(s, p) == Some(n) && SkipSpaces(s, p + n) == k && DayMonthAt(s, k)
    ensures MandatoryAt(s, p)
  {
  }

  lemma DayMonthNotSpace(s: string, k: nat)
    requires DayMonthAt(s, k)
    ensures k < |s| && !IsSpace(s[k])
  {
  }

  /** The scanner's test agrees with the reference reading. */
  lemma MandatoryIffAnchor(s: string, p: nat)
    ensures MandatoryAt(s, p) <==> AnchorAt(s, p)
  {
    if MandatoryAt(s, p) { MandatoryImpliesAnchor(s, p); }
    if AnchorAt(s, p) { AnchorImpliesMandatory(s, p); }
  }

  /** Left-to-right search, from `p` up to `hi`, for the first position passing `ok`. */
  function LocateFrom(p: nat, hi: nat, ok: nat -> bool): (r: Option<nat>)
    requires p <= hi
    ensures r.None? ==> forall q :: p <= q < hi ==> !ok(q)
    ensures r.Some? ==> p <= r.value < hi && ok(r.value) && forall q :: p <= q < r.value ==> !ok(q)
    decreases hi - p
  {
    if p == hi then None
    else if ok(p) then Some(p)
    else LocateFrom(p + 1, hi, ok)
  }

  /**
   * `re.search`: the leftmost weekday position where the mandatory part
   * matches, or nothing when there is none anywhere.
   */
  function Locate(s: string): (r: Option<nat>)
    ensures r.None? <==> forall p :: 0 <= p < |s| ==> !AnchorAt(s, p)
    ensures r.Some? ==> r.value < |s| && MandatoryAt(s, r.value) && AnchorAt(s, r.value)
    ensures r.Some? ==> forall p :: 0 <= p < r.value ==> !AnchorAt(s, p)
  {
    var ok := (q: nat) => MandatoryAt(s, q);
    var r := LocateFrom(0, |s|, ok);
    assert forall q: nat :: ok(q) == MandatoryAt(s, q);
    if r.Some? then
      NoAnchorBefore(s, r.value);
      MandatoryImpliesAnchor(s, r.value);
      r
    else
      NoAnchorBefore(s, |s|);
      r
  }

  /** Where the scanner's test fails everywhere before `e`, so does the reference reading. */
  lemma NoAnchorBefore(s: string, e: nat)
    requires forall q :: 0 <= q < e ==> !MandatoryAt(s, q)
    ensures forall q :: 0 <= q < e ==> !AnchorAt(s, q)
  {
    forall q | 0 <= q < e ensures !AnchorAt(s, q) {
      if AnchorAt(s, q) { AnchorImpliesMandatory(s, q); }
    }
  }

  /** The groups of the match `re.search` returns. */
  function Search(s: string): (r: Option<Captures>)
    ensures r.None? <==> forall p :: 0 <= p < |s| ==> !AnchorAt(s, p)
    ensures r.Some? ==> Locate(s).Some? && GroupsAt(s, Locate(s).value, r.value)
    ensures r.Some? ==> WellFormed(r.value)
  {
    match Locate(s)
    case None => None
    case Some(p) => Some(MatchAt(s, p))
  }
}
