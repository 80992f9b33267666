/**
 * Location extraction in `process_data` (processors/json_processor.py:5-11,
 * 75-93): the entry is lower-cased and split into tokens
 * `\b[a-zåäö]{3,}\b`; the canonical cities are sorted longest first (a stable
 * sort, so cities of equal length keep their order); the first city that
 * agrees with some token on its first `min(5, len(city))` characters is the
 * location.
 */
module Cities {
  import opened Text
  import opened Wrappers

  /** The canonical city list, in the order the source declares it. */
  const CanonicalCities: seq<string> := [
    "Iisalmi", "Joensuu", "Joroinen", "Juankoski", "Karttula", "Keitele",
    "Kiuruvesi", "Lapinlahti", "Leppävirta", "Maaninka", "Nilsiä", "Pieksämäki",
    "Pielavesi", "Rautalampi", "Siilinjärvi", "Suonenjoki", "Tahkovuori",
    "Varpaisjärvi", "Vuorela", "Toivala"]

  /** How many leading characters of a city and a token are compared. */
  const FixedMatchLen: nat := 5

  // ---------------------------------------------------------------------
  // `sorted(cities, key=len, reverse=True)`
  // ---------------------------------------------------------------------

  /** The cities of length exactly `n`, in their original order. */
  function OfLength(cs: seq<string>, n: nat): (r: seq<string>)
    ensures |r| <= |cs|
    ensures forall k :: 0 <= k < |r| ==> |r[k]| == n
  {
    if cs == [] then [] else (if |cs[0]| == n then [cs[0]] else []) + OfLength(cs[1..], n)
  }

  /** The groups of length `n`, `n - 1`, ..., `0`, one after the other. */
  function LongestFirstFrom(cs: seq<string>, n: nat): seq<string>
    decreases n
  {
    if n == 0 then OfLength(cs, 0) else OfLength(cs, n) + LongestFirstFrom(cs, n - 1)
  }

  /** The length of the longest city. */
  function MaxLength(cs: seq<string>): (m: nat)
    ensures forall k :: 0 <= k < |cs| ==> |cs[k]| <= m
  {
    if cs == [] then 0
    else
      var m := MaxLength(cs[1..]);
      assert forall k :: 1 <= k < |cs| ==> cs[k] == cs[1..][k - 1];
      if |cs[0]| <= m then m else |cs[0]|
  }

  /**
   * Python's `sorted(cs, key=len, reverse=True)`: longest first, and (the sort
   * being stable, also when reversed) cities of equal length in their
   * original order.
   */
  function SortByLengthDesc(cs: seq<string>): seq<string> {
    LongestFirstFrom(cs, MaxLength(cs))
  }

  /** Every city is at least as long as every city after it. */
  predicate Descending(r: seq<string>) {
    forall i, j :: 0 <= i < j < |r| ==> |r[i]| >= |r[j]|
  }

  predicate AllAtMost(r: seq<string>, n: nat) {
    forall k :: 0 <= k < |r| ==> |r[k]| <= n
  }

  lemma DescendingConcat(a: seq<string>, b: seq<string>, n: nat)
    requires forall k :: 0 <= k < |a| ==> |a[k]| == n
    requires Descending(b) && AllAtMost(b, n)
    ensures Descending(a + b) && AllAtMost(a + b, n)
  {
    var r := a + b;
    forall i, j | 0 <= i < j < |r| ensures |r[i]| >= |r[j]| {
      if j < |a| {
        assert r[i] == a[i] && r[j] == a[j];
      } else if i < |a| {
        assert r[i] == a[i] && r[j] == b[j - |a|];
      } else {
        assert r[i] == b[i - |a|] && r[j] == b[j - |a|];
      }
    }
    forall k | 0 <= k < |r| ensures |r[k]| <= n {
      if k < |a| { assert r[k] == a[k]; } else { assert r[k] == b[k - |a|]; }
    }
  }

  lemma {:induction false} LongestFirstDescending(cs: seq<string>, n: nat)
    ensures Descending(LongestFirstFrom(cs, n)) && AllAtMost(LongestFirstFrom(cs, n), n)
    decreases n
  {
    if n > 0 {
      LongestFirstDescending(cs, n - 1);
      DescendingConcat(OfLength(cs, n), LongestFirstFrom(cs, n - 1), n);
    }
  }

  /** The sorted list is in non-increasing order of length. */
  lemma SortIsDescending(cs: seq<string>)
    ensures Descending(SortByLengthDesc(cs))
  {
    LongestFirstDescending(cs, MaxLength(cs));
  }

  /** After an empty city in the sorted list, every city is empty. */
  lemma EmptyCitiesLast(cs: seq<string>, i: nat)
    requires i < |SortByLengthDesc(cs)| && SortByLengthDesc(cs)[i] == ""
    ensures forall k :: i <= k < |SortByLengthDesc(cs)| ==> SortByLengthDesc(cs)[k] == ""
  {
    SortIsDescending(cs);
  }

  lemma {:induction false} OfLengthAppend(a: seq<string>, b: seq<string>, n: nat)
    ensures OfLength(a + b, n) == OfLength(a, n) + OfLength(b, n)
  {
    if a == [] {
      assert a + b == b;
    } else {
      assert (a + b)[1..] == a[1..] + b;
      OfLengthAppend(a[1..], b, n);
    }
  }

  lemma {:induction false} OfLengthOfLength(cs: seq<string>, n: nat, len: nat)
    ensures OfLength(OfLength(cs, n), len) == if n == len then OfLength(cs, n) else []
  {
    if cs != [] {
      var head := if |cs[0]| == n then [cs[0]] else [];
      OfLengthAppend(head, OfLength(cs[1..], n), len);
      OfLengthOfLength(cs[1..], n, len);
      if |cs[0]| == n {
        assert head[1..] == [];
      }
    }
  }

  lemma {:induction false} LongestFirstOfLength(cs: seq<string>, n: nat, len: nat)
    ensures OfLength(LongestFirstFrom(cs, n), len) == if len <= n then OfLength(cs, len) else []
    decreases n
  {
    OfLengthOfLength(cs, n, len);
    if n > 0 {
      OfLengthAppend(OfLength(cs, n), LongestFirstFrom(cs, n - 1), len);
      LongestFirstOfLength(cs, n - 1, len);
    }
  }

  /**
   * The sort is stable: for every length, the sorted list holds the cities of
   * that length in their original order, and nothing else of that length.
   */
  lemma SortIsStable(cs: seq<string>, len: nat)
    ensures OfLength(SortByLengthDesc(cs), len) == OfLength(cs, len)
  {
    LongestFirstOfLength(cs, MaxLength(cs), len);
    if len > MaxLength(cs) {
      NoneOfLength(cs, len);
    }
  }

  lemma {:induction false} NoneOfLength(cs: seq<string>, len: nat)
    requires forall k :: 0 <= k < |cs| ==> |cs[k]| != len
    ensures OfLength(cs, len) == []
  {
    if cs != [] {
      NoneOfLength(cs[1..], len);
    }
  }

  /** Each city occurs as often in a list as in its group of equal length. */
  lemma {:induction false} CountInGroup(cs: seq<string>, c: string)
    ensures multiset(cs)[c] == multiset(OfLength(cs, |c|))[c]
  {
    if cs != [] {
      assert cs == [cs[0]] + cs[1..];
      CountInGroup(cs[1..], c);
    }
  }

  /** The sort is a permutation of its input. */
  lemma SortIsPermutation(cs: seq<string>)
    ensures multiset(SortByLengthDesc(cs)) == multiset(cs)
  {
    forall c ensures multiset(SortByLengthDesc(cs))[c] == multiset(cs)[c] {
      CountInGroup(SortByLengthDesc(cs), c);
      CountInGroup(cs, c);
      SortIsStable(cs, |c|);
    }
  }

  // ---------------------------------------------------------------------
  // Tokens of the entry: `re.findall(r'\b[a-zåäö]{3,}\b', entry.lower())`
  // ---------------------------------------------------------------------

  predicate IsCityLetter(c: char) { 'a' <= c <= 'z' || c == 'å' || c == 'ä' || c == 'ö' }

  /** A word the token pattern accepts: three or more letters of the class. */
  predicate IsCityToken(w: string) { |w| >= 3 && forall k :: 0 <= k < |w| ==> IsCityLetter(w[k]) }

  /**
   * The token pattern matches `s[i..e]`: a word boundary, three or more
   * letters of the class, a word boundary.
   */
  predicate TokenPatternMatches(s: string, i: nat, e: nat)
    requires i <= e <= |s|
  {
    Boundary(s, i) && i + 3 <= e && (forall k :: i <= k < e ==> IsCityLetter(s[k])) && Boundary(s, e)
  }

  /**
   * The pattern matches exactly the whole words (maximal word-character runs)
   * made only of letters of the class and at least three long: the closing
   * `\b` rules out stopping inside a word, so backtracking never helps.
   */
  lemma TokenPatternIsWholeToken(s: string, i: nat, e: nat)
    requires i <= e <= |s|
    ensures TokenPatternMatches(s, i, e) <==> WordStart(s, i) && e == WordEnd(s, i) && IsCityToken(s[i..e])
  {
    if TokenPatternMatches(s, i, e) {
      SpanCovers(s, i, e, IsWordChar);
      assert IsCityToken(s[i..e]) by {
        forall k | 0 <= k < e - i ensures IsCityLetter(s[i..e][k]) { assert s[i..e][k] == s[i + k]; }
      }
    }
    if WordStart(s, i) && e == WordEnd(s, i) && IsCityToken(s[i..e]) {
      forall k | i <= k < e ensures IsCityLetter(s[k]) { assert s[k] == s[i..e][k - i]; }
    }
  }

  /** The tokens of the lower-cased entry, in text order, duplicates kept. */
  function EntryWords(entry: string): (ws: seq<string>)
    ensures ws == Filter(Words(LowerStr(entry)), IsCityToken)
  {
    FindWordsIsFilteredWords(LowerStr(entry), IsCityToken);
    FindWordsFrom(LowerStr(entry), 0, IsCityToken)
  }

  // ---------------------------------------------------------------------
  // Which city an entry names
  // ---------------------------------------------------------------------

  /** Python's `s[:n]`: the first `n` characters, or all of `s` when it is shorter. */
  function Take(s: string, n: nat): (r: string)
    ensures |r| == Min(n, |s|) && r == s[..|r|]
  {
    if n <= |s| then s[..n] else s
  }

  /** `word[:match_len] == city.lower()[:match_len]` with `match_len = min(5, len(city))`. */
  predicate CityMatchesWord(city: string, word: string) {
    var cityLower := LowerStr(city);
    var matchLen := Min(FixedMatchLen, |cityLower|);
    Take(word, matchLen) == Take(cityLower, matchLen)
  }

  /**
   * A token agrees with a city exactly when it is at least `min(5, len(city))`
   * long and starts with that many characters of the lower-cased city: a
   * shorter token is never cut to the city's prefix.
   */
  lemma CityMatchesWordIff(city: string, word: string)
    ensures CityMatchesWord(city, word)
       <==> Min(FixedMatchLen, |city|) <= |word| && word[..Min(FixedMatchLen, |city|)] == LowerStr(city)[..Min(FixedMatchLen, |city|)]
  {
    var m := Min(FixedMatchLen, |city|);
    if CityMatchesWord(city, word) {
      assert |Take(word, m)| == m;
    }
  }

  /** Some token of the entry agrees with `city`. */
  predicate CityMatches(city: string, words: seq<string>) {
    exists k :: 0 <= k < |words| && CityMatchesWord(city, words[k])
  }

  /** The index of the first city from `i` on that some token agrees with. */
  function FirstMatchIndex(cs: seq<string>, i: nat, words: seq<string>): Option<nat>
    requires i <= |cs|
    decreases |cs| - i
  {
    if i == |cs| then None
    else if CityMatches(cs[i], words) then Some(i)
    else FirstMatchIndex(cs, i + 1, words)
  }

  /** The search finds nothing exactly when no city from `i` on agrees with a token. */
  lemma {:induction false} FirstMatchIndexNone(cs: seq<string>, i: nat, words: seq<string>)
    requires i <= |cs|
    ensures FirstMatchIndex(cs, i, words).None? <==> forall k :: i <= k < |cs| ==> !CityMatches(cs[k], words)
    decreases |cs| - i
  {
    if i < |cs| && !CityMatches(cs[i], words) {
      FirstMatchIndexNone(cs, i + 1, words);
    }
  }

  /** What the search finds is the first city from `i` on that agrees with a token. */
  lemma {:induction false} FirstMatchIndexSome(cs: seq<string>, i: nat, words: seq<string>, j: nat)
    requires i <= |cs| && FirstMatchIndex(cs, i, words) == Some(j)
    ensures i <= j < |cs| && CityMatches(cs[j], words)
    ensures forall k :: i <= k < j ==> !CityMatches(cs[k], words)
    decreases |cs| - i
  {
    if i < |cs| && !CityMatches(cs[i], words) {
      FirstMatchIndexSome(cs, i + 1, words, j);
      forall k | i <= k < j ensures !CityMatches(cs[k], words) {
        if k > i {
          assert i + 1 <= k < j;
        }
      }
    }
  }

  /** The first city in `cs` that some token agrees with. */
  function FirstMatch(cs: seq<string>, words: seq<string>): (r: Option<string>)
    ensures r.None? <==> forall k :: 0 <= k < |cs| ==> !CityMatches(cs[k], words)
    ensures r.Some? ==> r.value in cs && CityMatches(r.value, words)
  {
    FirstMatchIndexNone(cs, 0, words);
    match FirstMatchIndex(cs, 0, words)
    case None => None
    case Some(i) =>
      FirstMatchIndexSome(cs, 0, words, i);
      Some(cs[i])
  }

  /**
   * The location `process_data` reports for `entry`: the first city, longest
   * first, that agrees with a token of the entry.
   */
  function Location(entry: string, cities: seq<string>): Option<string> {
    FirstMatch(SortByLengthDesc(cities), EntryWords(entry))
  }

  /** Sorting neither adds nor loses a city. */
  lemma SortKeepsCities(cs: seq<string>)
    ensures forall c :: c in SortByLengthDesc(cs) <==> c in cs
  {
    SortIsPermutation(cs);
    forall c ensures c in SortByLengthDesc(cs) <==> c in cs {
      assert c in SortByLengthDesc(cs) <==> c in multiset(SortByLengthDesc(cs));
      assert c in cs <==> c in multiset(cs);
    }
  }

  /** The location is absent or one of the given cities, and then agrees with a token of the entry. */
  lemma LocationIsCity(entry: string, cities: seq<string>)
    ensures Location(entry, cities).None? <==> forall k :: 0 <= k < |cities| ==> !CityMatches(cities[k], EntryWords(entry))
    ensures Location(entry, cities).Some? ==> Location(entry, cities).value in cities
                                              && CityMatches(Location(entry, cities).value, EntryWords(entry))
  {
    var sorted := SortByLengthDesc(cities);
    var words := EntryWords(entry);
    SortKeepsCities(cities);
    if Location(entry, cities).None? {
      forall k | 0 <= k < |cities| ensures !CityMatches(cities[k], words) {
        assert cities[k] in sorted;
      }
    } else {
      var c := Location(entry, cities).value;
      assert c in cities;
      var k :| 0 <= k < |cities| && cities[k] == c;
    }
  }

  /**
   * When there is a location, it is the first city in longest-first order
   * that agrees with a token: every city before it agrees with none.
   */
  lemma LocationIsFirst(entry: string, cities: seq<string>)
    ensures Location(entry, cities).Some? ==>
              exists j :: 0 <= j < |SortByLengthDesc(cities)| && SortByLengthDesc(cities)[j] == Location(entry, cities).value
                          && forall k :: 0 <= k < j ==> !CityMatches(SortByLengthDesc(cities)[k], EntryWords(entry))
  {
    var sorted := SortByLengthDesc(cities);
    var words := EntryWords(entry);
    match FirstMatchIndex(sorted, 0, words)
    case None =>
    case Some(j) =>
      FirstMatchIndexSome(sorted, 0, words, j);
      assert sorted[j] == Location(entry, cities).value;
  }

  /**
   * The inner loop of the location search: the tokens in order, stopping at
   * the first one that agrees with `city`.
   */
  method AnyTokenAgrees(city: string, words: seq<string>) returns (matched: bool)
    ensures matched <==> CityMatches(city, words)
  {
    var cityLower := LowerStr(city);
    var matchLen := Min(FixedMatchLen, |cityLower|);
    matched := false;
    var wi := 0;
    while wi < |words|
      invariant 0 <= wi <= |words|
      invariant !matched
      invariant forall k :: 0 <= k < wi ==> !CityMatchesWord(city, words[k])
    {
      if Take(words[wi], matchLen) == Take(cityLower, matchLen) {
        assert CityMatchesWord(city, words[wi]);
        matched := true;
        break;
      }
      wi := wi + 1;
    }
  }

  /**
   * The nested search loops of `process_data`: cities longest first, and for
   * each the tokens in order; an agreeing token ends the inner loop, and a
   * non-empty location ends the outer one. An empty city agrees with every
   * token but is falsy, so the outer loop goes on; every city after it is
   * empty too, so the result is the same.
   */
  method MatchLocation(entry: string, cities: seq<string>) returns (location: Option<string>)
    ensures location == Location(entry, cities)
  {
    location := None;
    var entryWords := EntryWords(entry);
    var sortedCities := SortByLengthDesc(cities);
    ghost var first := FirstMatchIndex(sortedCities, 0, entryWords);
    var ci := 0;
    while ci < |sortedCities|
      invariant 0 <= ci <= |sortedCities|
      invariant location.None? ==> first == FirstMatchIndex(sortedCities, ci, entryWords)
      invariant location.Some? ==> first.Some? && first.value < ci && location == Some(sortedCities[first.value])
      invariant location.Some? ==> location == Some("") && forall k :: ci <= k < |sortedCities| ==> sortedCities[k] == ""
    {
      var city := sortedCities[ci];
      var matched := AnyTokenAgrees(city, entryWords);
      ghost var before := location;
      if matched {
        location := Some(city);
      }
      if before.None? {
        if location.Some? {
          assert CityMatches(city, entryWords);
          assert first == Some(ci);
          if city == "" {
            EmptyCitiesLast(cities, ci);
          }
        } else {
          assert !CityMatches(city, entryWords);
        }
      }
      if location.Some? && location.value != "" {
        break;
      }
      ci := ci + 1;
    }
  }
}
