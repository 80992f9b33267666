/**
 * The token classes both weekday patterns share (processors/json_processor.py
 * and processors/json_day_processor.py): the seven weekday names, the date
 * `\d{1,2}\.\d{1,2}(?:\.\d{4})?` and the clock time `\d{1,2}(?:[.:]\d{2})?`.
 * Each scanner follows the regular expression's own order of choices: greedy
 * repetition, optional parts tried before they are skipped.
 */
module Tokens {
  import opened Text
  import opened Wrappers

  /** The note both parsers append to a year they inferred rather than read. */
  const Note: string := " (Puuttuva vuosi generoitu ympärillä olevasta datasta)"

  /** The placeholder both parsers write for a field the notice does not give. */
  const Unknown: string := "Unknown"

  /** The weekday names (the patterns match them ignoring case). */
  const Weekdays: seq<string> :=
    ["maanantaina", "tiistaina", "keskiviikkona", "torstaina", "perjantaina", "lauantaina", "sunnuntaina"]

  /** No two weekday names can match at the same place: their first two letters differ. */
  lemma WeekdayUnique(s: string, i: nat, j1: nat, j2: nat)
    requires j1 < |Weekdays| && j2 < |Weekdays|
    requires StartsWithCI(s, i, Weekdays[j1]) && StartsWithCI(s, i, Weekdays[j2])
    ensures j1 == j2
  {
    assert Lower(s[i + 0]) == Weekdays[j1][0] == Weekdays[j2][0];
    assert Lower(s[i + 1]) == Weekdays[j1][1] == Weekdays[j2][1];
  }

  function WeekdayFrom(s: string, i: nat, j: nat): (r: Option<nat>)
    requires j <= |Weekdays|
    ensures r.None? ==> forall j' :: j <= j' < |Weekdays| ==> !StartsWithCI(s, i, Weekdays[j'])
    ensures r.Some? ==> j <= r.value < |Weekdays| && StartsWithCI(s, i, Weekdays[r.value])
    decreases |Weekdays| - j
  {
    if j == |Weekdays| then None
    else if StartsWithCI(s, i, Weekdays[j]) then Some(j)
    else WeekdayFrom(s, i, j + 1)
  }

  /** Which weekday name, if any, is found at `i`, ignoring case. */
  function WeekdayIndexAt(s: string, i: nat): (r: Option<nat>)
    ensures r.None? <==> forall j :: 0 <= j < |Weekdays| ==> !StartsWithCI(s, i, Weekdays[j])
    ensures r.Some? ==> r.value < |Weekdays| && StartsWithCI(s, i, Weekdays[r.value])
  {
    WeekdayFrom(s, i, 0)
  }

  /**
   * The alternation of weekday names at `i`: the length of the name found
   * there, ignoring case, if any. At most one name can match.
   */
  function WeekdayAt(s: string, i: nat): (r: Option<nat>)
    ensures r.None? <==> forall j :: 0 <= j < |Weekdays| ==> !StartsWithCI(s, i, Weekdays[j])
    ensures forall j :: 0 <= j < |Weekdays| && StartsWithCI(s, i, Weekdays[j]) ==> r == Some(|Weekdays[j]|)
  {
    match WeekdayIndexAt(s, i)
    case None => None
    case Some(j) =>
      assert forall j' :: 0 <= j' < |Weekdays| && StartsWithCI(s, i, Weekdays[j']) ==> j' == j by {
        forall j' | 0 <= j' < |Weekdays| && StartsWithCI(s, i, Weekdays[j']) ensures j' == j {
          WeekdayUnique(s, i, j, j');
        }
      }
      Some(|Weekdays[j]|)
  }

  /** The text a weekday name matched is that name once lower-cased. */
  lemma WeekdayCaptured(s: string, i: nat, j: nat)
    requires j < |Weekdays| && StartsWithCI(s, i, Weekdays[j])
    ensures i + |Weekdays[j]| <= |s| && LowerStr(s[i..i + |Weekdays[j]|]) == Weekdays[j]
  {
  }

  /** The position right after the text `t` read at `i`. */
  function Past(i: nat, t: string): nat {
    i + |t|
  }

  /** The text the alternation matched at `i`. */
  function WeekdayTextAt(s: string, i: nat): (w: string)
    requires WeekdayAt(s, i).Some?
    ensures |w| == WeekdayAt(s, i).value && Past(i, w) <= |s| && w == s[i..i + |w|]
  {
    WeekdayCaptured(s, i, WeekdayIndexAt(s, i).value);
    s[i..i + WeekdayAt(s, i).value]
  }

  /** The text the alternation matched is a weekday name once lower-cased. */
  lemma WeekdayTextIsName(s: string, i: nat)
    requires WeekdayAt(s, i).Some?
    ensures LowerStr(WeekdayTextAt(s, i)) in Weekdays
  {
    WeekdayCaptured(s, i, WeekdayIndexAt(s, i).value);
  }

  /** `s[i..j]` is all whitespace. */
  predicate AllSpaces(s: string, i: nat, j: nat)
    requires i <= j <= |s|
  {
    forall k {:trigger IsSpace(s[k])} :: i <= k < j ==> IsSpace(s[k])
  }

  /** The whitespace run a greedy `\s*` consumes is the only run after which a non-space can follow. */
  lemma SkipSpacesUnique(s: string, i: nat, k: nat)
    requires i <= k < |s| && AllSpaces(s, i, k) && !IsSpace(s[k])
    ensures SkipSpaces(s, i) == k
  {
  }

  /** The shortest text `\d{1,2}\.\d` can match at `k`: what a date needs in order to match at all. */
  predicate DayMonthAt(s: string, k: nat) {
    || (k + 2 < |s| && IsDigit(s[k]) && s[k + 1] == '.' && IsDigit(s[k + 2]))
    || (k + 3 < |s| && IsDigit(s[k]) && IsDigit(s[k + 1]) && s[k + 2] == '.' && IsDigit(s[k + 3]))
  }

  datatype DateMatch = DateMatch(day: string, month: string, year: Option<string>, end: nat)

  /** The text a date match covers. */
  function DateText(d: DateMatch): string {
    d.day + "." + d.month + (match d.year case Some(y) => "." + y case None => "")
  }

  predicate WellFormedDate(d: DateMatch) {
    && 1 <= |d.day| <= 2 && AllDigits(d.day)
    && 1 <= |d.month| <= 2 && AllDigits(d.month)
    && (d.year.Some? ==> |d.year.value| == 4 && AllDigits(d.year.value))
  }

  /** A year `\.\d{4}` at `c`. */
  predicate YearAt(s: string, c: nat) {
    c + 5 <= |s| && s[c] == '.' && IsDigit(s[c + 1]) && IsDigit(s[c + 2]) && IsDigit(s[c + 3]) && IsDigit(s[c + 4])
  }

  /** Where a date with these groups ends when it is read at `a`. */
  function DateEnd(a: nat, day: string, month: string, year: Option<string>): nat {
    a + |day| + 1 + |month| + if year.Some? then 5 else 0
  }

  /** `s[i..j]` is one or two digits: what `\d{1,2}` can take. */
  predicate ShortDigitsAt(s: string, i: nat, j: nat) {
    i < j <= |s| && j - i <= 2 && IsDigit(s[i]) && (j - i == 2 ==> IsDigit(s[i + 1]))
  }

  /**
   * Reference reading of `\d{1,2}\.\d{1,2}(?:\.\d{4})?` at `a` as Python's
   * engine takes it: the day is the digits before the dot at `e`, the month
   * the digits after it up to `c`, stopping at two digits or where the digits
   * end, and the year the four digits after a dot at `c`, taken exactly when
   * they are there. (The day needs no such clause: a dot follows it.)
   */
  predicate GreedyDate(s: string, a: nat, d: DateMatch) {
    var e := a + |d.day|;
    var c := e + 1 + |d.month|;
    && c <= |s| && ShortDigitsAt(s, a, e) && ShortDigitsAt(s, e + 1, c)
    && d.day == s[a..e] && s[e] == '.' && d.month == s[e + 1..c]
    && (|d.month| == 2 || c == |s| || !IsDigit(s[c]))
    && (d.year.Some? <==> YearAt(s, c))
    && (d.year.Some? ==> d.year.value == s[c + 1..c + 5])
    && d.end == DateEnd(a, d.day, d.month, d.year)
  }

  /** At most one date can be read at a position. */
  lemma GreedyDateUnique(s: string, a1: nat, a2: nat, d1: DateMatch, d2: DateMatch)
    requires a1 == a2 && GreedyDate(s, a1, d1) && GreedyDate(s, a2, d2)
    ensures d1 == d2
  {
    GreedyDateLengths(s, a1, d1);
    GreedyDateLengths(s, a2, d2);
  }

  /** The day is one digit exactly when a dot follows its first digit, and the month two exactly when it can be. */
  lemma GreedyDateLengths(s: string, a: nat, d: DateMatch)
    requires GreedyDate(s, a, d)
    ensures a + 1 < |s| && |d.day| == if s[a + 1] == '.' then 1 else 2
    ensures var e := a + |d.day|;
      e + 1 < |s| && |d.month| == if e + 2 < |s| && IsDigit(s[e + 2]) then 2 else 1
  {
  }

  /** The text a date read at `a` covers is the one its groups spell out. */
  lemma GreedyDateText(s: string, a: nat, d: DateMatch)
    requires GreedyDate(s, a, d)
    ensures a < d.end <= |s| && s[a..d.end] == DateText(d)
  {
    var e := a + |d.day|;
    var c := e + 1 + |d.month|;
    JoinAtDot(s, a, e, c, d.day, d.month);
    if d.year.Some? {
      JoinAtDot(s, a, c, c + 5, s[a..c], d.year.value);
    } else {
      assert d.day + "." + d.month + "" == s[a..c];
    }
  }

  /** Text around a dot at `e` is the part before it, the dot, and the part after it. */
  lemma JoinAtDot(s: string, a: nat, e: nat, c: nat, x: string, y: string)
    requires a <= e < c <= |s| && s[e] == '.' && x == s[a..e] && y == s[e + 1..c]
    ensures s[a..c] == x + "." + y && s[a..c] == x + ("." + y)
  {
    assert s[a..c] == s[a..e] + [s[e]] + s[e + 1..c];
  }

  /** What `\d{1,2}` took is all digits. */
  lemma ShortDigits(s: string, i: nat, j: nat)
    requires ShortDigitsAt(s, i, j)
    ensures AllDigits(s[i..j])
  {
    assert s[i..j][0] == s[i];
    if j - i == 2 { assert s[i..j][1] == s[i + 1]; }
  }

  /** A date read at `a` has groups of the shape the pattern allows. */
  lemma GreedyDateWellFormed(s: string, a: nat, d: DateMatch)
    requires GreedyDate(s, a, d)
    ensures WellFormedDate(d)
  {
    var e := a + |d.day|;
    var c := e + 1 + |d.month|;
    ShortDigits(s, a, e);
    ShortDigits(s, e + 1, c);
    if d.year.Some? {
      var y := s[c + 1..c + 5];
      assert y[0] == s[c + 1] && y[1] == s[c + 2] && y[2] == s[c + 3] && y[3] == s[c + 4];
    }
  }

  /**
   * The month and the optional year once the day `s[a..e]` and the dot at
   * `e` are known: the month takes two digits when it can, and the year is
   * taken whenever a dot and four digits follow.
   */
  function MonthYearAt(s: string, a: nat, e: nat): (d: DateMatch)
    requires ShortDigitsAt(s, a, e) && e + 1 < |s| && s[e] == '.' && IsDigit(s[e + 1])
    ensures GreedyDate(s, a, d) && |d.day| == e - a
  {
    var c := if e + 2 < |s| && IsDigit(s[e + 2]) then e + 3 else e + 2;
    var year := if YearAt(s, c) then Some(s[c + 1..c + 5]) else None;
    DateMatch(s[a..e], s[e + 1..c], year, if YearAt(s, c) then c + 5 else c)
  }

  /**
   * `\d{1,2}\.\d{1,2}(?:\.\d{4})?` at `a`. The day is one digit when a dot
   * follows it and two otherwise (backtracking cannot help a longer run);
   * nothing after the date can fail, so this first way is the one Python
   * keeps.
   */
  function DateAt(s: string, a: nat): (r: Option<DateMatch>)
    requires a <= |s|
    ensures r.Some? <==> DayMonthAt(s, a)
    ensures r.Some? ==> GreedyDate(s, a, r.value) && WellFormedDate(r.value)
  {
    if DayMonthAt(s, a) then
      var d := MonthYearAt(s, a, if s[a + 1] == '.' then a + 1 else a + 2);
      GreedyDateWellFormed(s, a, d);
      Some(d)
    else None
  }

  /** The shape `\d{1,2}(?:[.:]\d{2})?` of a captured clock time. */
  predicate IsClock(t: string) {
    || (1 <= |t| <= 2 && AllDigits(t))
    || (4 <= |t| <= 5 && AllDigits(t[..|t| - 3]) && (t[|t| - 3] == '.' || t[|t| - 3] == ':') && AllDigits(t[|t| - 2..]))
  }

  /** Minutes `[.:]\d{2}` at `k`. */
  predicate MinutesAt(s: string, k: nat) {
    k + 3 <= |s| && (s[k] == ':' || s[k] == '.') && IsDigit(s[k + 1]) && IsDigit(s[k + 2])
  }

  /**
   * Reference reading of `\d{1,2}(?:[.:]\d{2})?` at `i` as Python's engine
   * takes it, by length: the `n` characters at `i` are `h` hour digits and,
   * when `n == h + 3`, minutes. The hour stops at two digits or where the
   * digits end, and the minutes are taken exactly when a separator and two
   * digits follow the hour.
   */
  predicate ClockRun(s: string, i: nat, n: nat) {
    && i + n <= |s|
    && var h := if n <= 2 then n else n - 3;
    && 1 <= h <= 2 && (n == h || n == h + 3)
    && IsDigit(s[i]) && (h == 2 ==> IsDigit(s[i + 1]))
    && (h == 2 || i + 1 == |s| || !IsDigit(s[i + 1]))
    && (n == h + 3 <==> MinutesAt(s, i + h))
  }

  /** `t` is the clock time a greedy `(clock)` captures at `i`. */
  predicate GreedyClock(s: string, i: nat, t: string) {
    i + |t| <= |s| && t == s[i..i + |t|] && ClockRun(s, i, |t|)
  }

  /** At most one clock time can be read at `i`. */
  lemma GreedyClockUnique(s: string, i: nat, t1: string, t2: string)
    requires GreedyClock(s, i, t1) && GreedyClock(s, i, t2)
    ensures t1 == t2
  {
    ClockRunUnique(s, i, |t1|, |t2|);
  }

  /** The hour digits decide whether minutes follow, so the length is determined. */
  lemma ClockRunUnique(s: string, i: nat, n1: nat, n2: nat)
    requires ClockRun(s, i, n1) && ClockRun(s, i, n2)
    ensures n1 == n2
  {
    var h1 := if n1 <= 2 then n1 else n1 - 3;
    var h2 := if n2 <= 2 then n2 else n2 - 3;
    assert IsDigit(s[i + h1 - 1]) && IsDigit(s[i + h2 - 1]);
    assert h1 == h2;
  }

  /**
   * `\d{1,2}(?:[.:]\d{2})?` at `i`: up to two hour digits, then minutes when a
   * separator and two digits follow. The length of the match, if any.
   */
  function ClockAt(s: string, i: nat): (r: Option<nat>)
    requires i <= |s|
    ensures r.Some? <==> i < |s| && IsDigit(s[i])
    ensures r.Some? ==> i + r.value <= |s| && GreedyClock(s, i, s[i..i + r.value])
    ensures r.Some? ==> IsClock(s[i..i + r.value])
  {
    if i < |s| && IsDigit(s[i]) then
      var h := if i + 1 < |s| && IsDigit(s[i + 1]) then 2 else 1;
      var n := if MinutesAt(s, i + h) then h + 3 else h;
      ClockShape(s, i, n);
      Some(n)
    else None
  }

  /** What a clock reading took has the shape of a clock time. */
  lemma ClockShape(s: string, i: nat, n: nat)
    requires ClockRun(s, i, n)
    ensures IsClock(s[i..i + n])
  {
    var t := s[i..i + n];
    var h := if n <= 2 then n else n - 3;
    ShortDigits(s, i, i + h);
    assert t[..h] == s[i..i + h];
    if n == h + 3 {
      assert t[h] == s[i + h];
      assert t[h + 1] == s[i + h + 1] && t[h + 2] == s[i + h + 2];
    }
  }

  /** The length of an optional group's text (zero when it is absent). */
  function Len(o: Option<string>): nat {
    if o.Some? then |o.value| else 0
  }

  /** `(clock)?` at `i`: the clock time read there when a digit starts it, else nothing. */
  predicate ClockOrNone(s: string, i: nat, o: Option<string>) {
    i <= |s| && if o.Some? then GreedyClock(s, i, o.value) else (i == |s| || !IsDigit(s[i]))
  }

  /** At most one optional clock time can be read at `i`. */
  lemma ClockOrNoneUnique(s: string, i: nat, o1: Option<string>, o2: Option<string>)
    requires ClockOrNone(s, i, o1) && ClockOrNone(s, i, o2)
    ensures o1 == o2
  {
    if o1.Some? && o2.Some? {
      GreedyClockUnique(s, i, o1.value, o2.value);
    }
  }
}
