/**
 * The worked example of `process_data` (processors/json_processor.py:27-107):
 * the notice "Keskiviikkona 4.6. klo 10-12 Kaivinkoneella katkaistu kaapeli
 * Iisalmessa", read with the canonical city list after a notice from June
 * 2025, is a Wednesday outage on 4 June from 10 to 12, caused by an
 * excavator, in Iisalmi; its year is the remembered one, with the note.
 *
 * The notice is evaluated group by group (the weekday, the date, the time
 * block, the message), then the tags of the message and the tokens of the
 * lower-cased notice, which only Iisalmi agrees with. The lemmas take the
 * notice as a parameter described by `IsNotice`, which keeps the verifier
 * from unfolding the scanners on the literal text.
 */
module ProcessDataExample {
  import opened Text
  import opened Wrappers
  import opened Tokens
  import opened MainPattern
  import opened Keywords
  import opened Cities
  import opened JsonProcessor

  /** The notice up to the message, and the message, written word by word. */
  const Head: string := "Keskiviikkona 4.6. klo 10-12 "
  const Message: string := "Kaivinkoneella" + " " + ("katkaistu" + " " + ("kaapeli" + " " + "Iisalmessa"))
  const Notice: string := Head + Message

  /** The same text lower-cased, written token by token. */
  const LowerHead: string := "keskiviikkona" + " " + ("4" + "." + ("6" + "." + (" " + ("klo" + " " + ("10" + "-" + ("12" + " "))))))
  const LowerMessage: string := "kaivinkoneella" + " " + ("katkaistu" + " " + ("kaapeli" + " " + "iisalmessa"))

  /** The word-character runs of the lower-cased notice. */
  const NoticeWords: seq<string> :=
    ["keskiviikkona", "4", "6", "klo", "10", "12", "kaivinkoneella", "katkaistu", "kaapeli", "iisalmessa"]

  /** The groups `re.search` returns for the notice. */
  const NoticeCaptures: Captures := Captures("Keskiviikkona", "4", "6", None, Some("10"), Some("12"), Message)

  /** `s` is the notice: the head, then the message. */
  predicate IsNotice(s: string) {
    |s| == |Head| + |Message| && s[..|Head|] == Head && s[|Head|..] == Message
  }

  /** The record `process_data` returns for the notice. */
  lemma WorkedExample(entry: string, cities: seq<string>, st: State)
    requires entry == Notice && cities == CanonicalCities && st == State(Some("2025"), 6)
    ensures ProcessEntry(entry, cities, st) ==
      (Some(OutageRecord("Keskiviikkona", "4", "6", "2025" + Note, Some("10"), "12", ["Kaivinkoneella"], Some("Iisalmi"))), st)
  {
    assert ValidState(st);
    NoticeIsNotice(entry);
    NoticeSearch(entry);
    MessageTags();
    NoticeLocation(entry, cities);
    JuneStaysInYear(st);
    ProcessEntryIs(entry, cities, st, NoticeCaptures, ["Kaivinkoneella"], Some("Iisalmi"), ("2025" + Note, st));
  }

  lemma NoticeIsNotice(s: string)
    requires s == Notice
    ensures IsNotice(s)
  {
    assert |Head| == 29;
  }

  /** An undated notice in June after one from June 2025 stays in 2025. */
  lemma JuneStaysInYear(st: State)
    requires st == State(Some("2025"), 6)
    ensures ResolveYear("6", None, st) == ("2025" + Note, st)
  {
    assert ParseNat("6") == 6;
  }

  /** The record assembled from the groups, the tags, the location and the year. */
  lemma ProcessEntryIs(entry: string, cities: seq<string>, st: State, c: Captures, tags: seq<string>, loc: Option<string>, y: (string, State))
    requires ValidState(st)
    requires Search(entry) == Some(c)
    requires FilterPrefixKeywords(Strip(c.tail)) == tags
    requires Location(entry, cities) == loc
    requires ResolveYear(c.month, c.year, st) == y
    ensures ProcessEntry(entry, cities, st) ==
      (Some(OutageRecord(c.weekday, c.day, c.month, y.0, c.timeStart, if c.timeEnd.Some? then c.timeEnd.value else Unknown, tags, loc)), y.1)
  {
  }

  // ---------------------------------------------------------------------
  // The groups
  // ---------------------------------------------------------------------

  /** The characters of the head. */
  lemma HeadChar(s: string, k: nat)
    requires IsNotice(s) && k < |Head|
    ensures s[k] == Head[k]
  {
    assert s[..|Head|][k] == s[k];
  }

  /** Wednesday at the start. */
  lemma NoticeWeekday(s: string)
    requires IsNotice(s)
    ensures WeekdayAt(s, 0) == Some(13)
  {
    forall k | 0 <= k < 13 ensures Lower(s[k]) == Weekdays[2][k] {
      HeadChar(s, k);
    }
    assert StartsWithCI(s, 0, Weekdays[2]);
  }

  /** Wednesday, one space and `4.6`: the mandatory part matches at 0. */
  lemma NoticeMandatory(s: string)
    requires IsNotice(s)
    ensures SkipSpaces(s, 13) == 14 && MandatoryAt(s, 0)
  {
    NoticeWeekday(s);
    HeadChar(s, 13);
    HeadChar(s, 14);
    HeadChar(s, 15);
    HeadChar(s, 16);
    MandatoryFrom(s, 0, 13, 14);
  }

  /** The digits and dots of the date. */
  lemma DateChars(s: string)
    requires IsNotice(s)
    ensures s[14] == '4' && s[15] == '.' && s[16] == '6' && s[17] == '.' && s[18] == ' '
  {
    HeadChar(s, 14);
    HeadChar(s, 15);
    HeadChar(s, 16);
    HeadChar(s, 17);
    HeadChar(s, 18);
  }

  /** The date group takes day 4 and month 6; no year follows. */
  lemma NoticeDate(s: string)
    requires IsNotice(s)
    ensures DateAt(s, 14) == Some(DateMatch("4", "6", None, 17))
  {
    DateChars(s);
    assert s[14..15] == "4" && s[16..17] == "6";
  }

  /** The characters around the time marker. */
  lemma MarkerChars(s: string)
    requires IsNotice(s)
    ensures s[18] == ' ' && s[19] == 'k' && s[20] == 'l' && s[21] == 'o' && s[22] == ' ' && s[23] == '1'
  {
    HeadChar(s, 18);
    HeadChar(s, 19);
    HeadChar(s, 20);
    HeadChar(s, 21);
    HeadChar(s, 22);
    HeadChar(s, 23);
  }

  /** `klo` is the time marker (`kello` does not match). */
  lemma NoticeMarker(s: string)
    requires IsNotice(s)
    ensures MarkerAt(s, 19) == Some(22)
  {
    MarkerChars(s);
    assert Lower(s[20]) != "kello"[1];
    assert StartsWithCI(s, 19, "klo");
  }

  /** One space on each side of the marker. */
  lemma MarkerSpaces(s: string)
    requires IsNotice(s)
    ensures SkipSpaces(s, 18) == 19 && SkipSpaces(s, 22) == 23
  {
    MarkerChars(s);
  }

  /** The two clock times around the hyphen. */
  lemma NoticeClocks(s: string)
    requires IsNotice(s)
    ensures OptionalClock(s, 23) == (Some("10"), 25)
    ensures DashesEnd(s, 25) == 26
    ensures OptionalClock(s, 26) == (Some("12"), 28)
  {
    ClockChars(s);
    TwoDigitClock(s, 23, "10");
    assert DashesEnd(s, 26) == 26;
    TwoDigitClock(s, 26, "12");
  }

  /** The characters of the time range. */
  lemma ClockChars(s: string)
    requires IsNotice(s)
    ensures s[23] == '1' && s[24] == '0' && s[25] == '-' && s[26] == '1' && s[27] == '2' && s[28] == ' '
  {
    forall k | 23 <= k <= 28 ensures s[k] == Head[k] {
      HeadChar(s, k);
    }
  }

  /** Two digits followed by neither a digit nor a minute separator: an hour without minutes. */
  lemma TwoDigitClock(s: string, i: nat, t: string)
    requires i + 3 <= |s| && IsDigit(s[i]) && IsDigit(s[i + 1]) && s[i + 2] in " -" && t == s[i..i + 2]
    ensures OptionalClock(s, i) == (Some(t), i + 2)
  {
    assert !MinutesAt(s, i + 2);
  }

  lemma NoticeTimeBlock(s: string)
    requires IsNotice(s)
    ensures TimeBlockAt(s, 18) == Some(TimeBlock(Some("10"), Some("12"), 28))
  {
    NoticeMarker(s);
    MarkerSpaces(s);
    NoticeClocks(s);
  }

  /** The message runs to the end of the notice. */
  lemma NoticeTail(s: string)
    requires IsNotice(s)
    ensures LineFrom(s, 29) == Message
  {
    MessageHasNoNewline(s[29..]);
    forall k | 29 <= k < |s| ensures NotNewline(s[k]) {
      assert s[k] == s[29..][k - 29];
    }
    SpanCovers(s, 29, |s|, NotNewline);
  }

  lemma MessageHasNoNewline(m: string)
    requires m == Message
    ensures forall k :: 0 <= k < |m| ==> m[k] != '\n'
  {
  }

  /** `TimeAndTail` once its steps are known, when a dot stands right at `i`. */
  lemma TimeAndTailIs(s: string, i: nat, tb: TimeBlock, tail: string)
    requires i < |s| && PastDot(s, i) == i + 1
    requires TimeBlockAt(s, i + 1) == Some(tb) && LineFrom(s, SkipSpaces(s, tb.stop)) == tail
    ensures TimeAndTail(s, i).0 == tb.start
    ensures TimeAndTail(s, i).1 == tb.end
    ensures TimeAndTail(s, i).2 == tail
  {
    var t := TimeBlockAt(s, i + 1).value;
    assert t == tb;
    assert LineFrom(s, SkipSpaces(s, t.stop)) == tail;
  }

  /** The dot right after the date is skipped. */
  lemma NoticeDot(s: string)
    requires IsNotice(s)
    ensures SkipSpaces(s, 17) == 17 && s[17] == '.'
  {
    HeadChar(s, 17);
  }

  /** One space before the message. */
  lemma NoticeGap(s: string)
    requires IsNotice(s)
    ensures SkipSpaces(s, 28) == 29
  {
    HeadChar(s, 28);
    assert s[29] == Message[0] by { assert s[29] == s[|Head|..][0]; }
  }

  /** After the date: the trailing dot, the time block and the message. */
  lemma NoticeTimes(s: string)
    requires IsNotice(s)
    ensures TimeAndTail(s, 17).0 == Some("10")
    ensures TimeAndTail(s, 17).1 == Some("12")
    ensures TimeAndTail(s, 17).2 == Message
  {
    NoticeDot(s);
    assert PastDot(s, 17) == 18;
    NoticeTimeBlock(s);
    NoticeGap(s);
    NoticeTail(s);
    TimeAndTailIs(s, 17, TimeBlock(Some("10"), Some("12"), 28), Message);
  }

  /** The search stops at the first position. */
  lemma NoticeLocate(s: string)
    requires IsNotice(s)
    ensures Locate(s) == Some(0)
  {
    NoticeMandatory(s);
    var ok := (q: nat) => MandatoryAt(s, q);
    assert LocateFrom(0, |s|, ok) == Some(0);
  }

  lemma NoticeName(s: string)
    requires IsNotice(s)
    ensures s[0..13] == "Keskiviikkona"
  {
    assert s[0..13] == s[..|Head|][0..13];
  }

  lemma NoticeMatch(s: string)
    requires IsNotice(s) && MandatoryAt(s, 0)
    ensures MatchAt(s, 0) == NoticeCaptures
  {
    NoticeWeekday(s);
    NoticeMandatory(s);
    NoticeDate(s);
    NoticeTimes(s);
    NoticeName(s);
  }

  /** The groups the search returns for the notice. */
  lemma NoticeSearch(s: string)
    requires IsNotice(s)
    ensures Search(s) == Some(NoticeCaptures)
  {
    NoticeLocate(s);
    NoticeMatch(s);
  }

  // ---------------------------------------------------------------------
  // The tags
  // ---------------------------------------------------------------------

  /** The message has no surrounding whitespace. */
  lemma MessageStripped(m: string)
    requires m == Message
    ensures Strip(m) == m
  {
    assert TrailingSpaceStart(m, |m|) == |m|;
  }

  /** Four words separated by single spaces. */
  lemma FourWords(a: string, b: string, c: string, d: string)
    requires a != [] && AllWordChars(a) && b != [] && AllWordChars(b)
    requires c != [] && AllWordChars(c) && d != [] && AllWordChars(d)
    ensures Words(a + [' '] + (b + [' '] + (c + [' '] + d))) == [a, b, c, d]
  {
    WordsWordThenSeparator(a, ' ', b + [' '] + (c + [' '] + d));
    ThreeWords(b, c, d);
  }

  /** The four words of the message. */
  lemma MessageWords(m: string)
    requires m == Message
    ensures Words(m) == ["Kaivinkoneella", "katkaistu", "kaapeli", "Iisalmessa"]
  {
    var a, b, c, d := "Kaivinkoneella", "katkaistu", "kaapeli", "Iisalmessa";
    assert AllWordChars(a) && AllWordChars(b) && AllWordChars(c) && AllWordChars(d);
    FourWords(a, b, c, d);
  }

  /** Only the excavator word begins with a stem. */
  lemma MessageKeywords()
    ensures IsKeyword("Kaivinkoneella") && !IsKeyword("katkaistu") && !IsKeyword("kaapeli") && !IsKeyword("Iisalmessa")
  {
    assert StartsWithCI("Kaivinkoneella", 0, Prefixes[7]);
    NotKeyword("katkaistu");
    NotKeyword("kaapeli");
    NotKeyword("Iisalmessa");
  }

  /** No stem begins with `i`, `kaa` or `kat`. */
  lemma NotKeyword(w: string)
    requires |w| >= 3 && (w[0] == 'I' || (w[0] == 'k' && w[1] == 'a' && (w[2] == 'a' || w[2] == 't')))
    ensures !IsKeyword(w)
  {
    forall j | 0 <= j < |Prefixes| ensures !StartsWithCI(w, 0, Prefixes[j]) {
      assert Prefixes[j][0] != 'i';
      assert Prefixes[j][0] == 'k' && Prefixes[j][1] == 'a' ==> Prefixes[j][2] != 'a' && Prefixes[j][2] != 't';
    }
  }

  /** The tags of the message. */
  lemma MessageTags()
    ensures FilterPrefixKeywords(Strip(NoticeCaptures.tail)) == ["Kaivinkoneella"]
  {
    MessageStripped(Message);
    MessageWords(Message);
    MessageKeywords();
    FilterFirstOfFour("Kaivinkoneella", "katkaistu", "kaapeli", "Iisalmessa");
  }

  lemma FilterFirstOfFour(a: string, b: string, c: string, d: string)
    requires IsKeyword(a) && !IsKeyword(b) && !IsKeyword(c) && !IsKeyword(d)
    ensures Filter([a, b, c, d], IsKeyword) == [a]
  {
    assert Filter([d], IsKeyword) == [] by { assert [d][1..] == []; }
    assert Filter([c, d], IsKeyword) == [] by { assert [c, d][1..] == [d]; }
    assert Filter([b, c, d], IsKeyword) == [] by { assert [b, c, d][1..] == [c, d]; }
    assert [a, b, c, d][1..] == [b, c, d];
  }

  // ---------------------------------------------------------------------
  // The tokens and the location
  // ---------------------------------------------------------------------

  /** Lower-casing works character by character. */
  lemma LowerAppend(a: string, b: string)
    ensures LowerStr(a + b) == LowerStr(a) + LowerStr(b)
  {
  }

  /** Lower-casing the notice, part by part. */
  lemma HeadLowered(h: string)
    requires h == Head
    ensures LowerStr(h) == LowerHead
  {
    assert forall k :: 0 <= k < |h| ==> Lower(h[k]) == LowerHead[k];
  }

  lemma MessageLowered(m: string)
    requires m == Message
    ensures LowerStr(m) == LowerMessage
  {
    assert forall k :: 0 <= k < |m| ==> Lower(m[k]) == LowerMessage[k];
  }

  /** Six elements put in front one at a time. */
  lemma ConsSix<T>(a: T, b: T, c: T, d: T, e: T, f: T, r: seq<T>)
    ensures [a] + ([b] + ([c] + ([d] + ([e] + ([f] + r))))) == [a, b, c, d, e, f] + r
  {
  }

  /** The six word-character runs before the message. */
  lemma HeadWords(m: string)
    ensures Words(LowerHead + m) == ["keskiviikkona", "4", "6", "klo", "10", "12"] + Words(m)
  {
    var r3 := " " + ("klo" + " " + ("10" + "-" + ("12" + " " + m)));
    assert AllWordChars("keskiviikkona") && AllWordChars("4") && AllWordChars("6");
    assert AllWordChars("klo") && AllWordChars("10") && AllWordChars("12");
    assert LowerHead + m == "keskiviikkona" + " " + ("4" + "." + ("6" + "." + r3));
    WordsWordThenSeparator("keskiviikkona", ' ', "4" + "." + ("6" + "." + r3));
    WordsWordThenSeparator("4", '.', "6" + "." + r3);
    WordsWordThenSeparator("6", '.', r3);
    WordsSkip(r3);
    assert r3[1..] == "klo" + " " + ("10" + "-" + ("12" + " " + m));
    WordsWordThenSeparator("klo", ' ', "10" + "-" + ("12" + " " + m));
    WordsWordThenSeparator("10", '-', "12" + " " + m);
    WordsWordThenSeparator("12", ' ', m);
    ConsSix("keskiviikkona", "4", "6", "klo", "10", "12", Words(m));
  }

  lemma LowerMessageWords(m: string)
    requires m == LowerMessage
    ensures Words(m) == ["kaivinkoneella", "katkaistu", "kaapeli", "iisalmessa"]
  {
    assert AllWordChars("kaivinkoneella") && AllWordChars("katkaistu");
    assert AllWordChars("kaapeli") && AllWordChars("iisalmessa");
    FourWords("kaivinkoneella", "katkaistu", "kaapeli", "iisalmessa");
  }

  /** The word-character runs of the lower-cased notice. */
  lemma NoticeWordsLowered(s: string)
    requires IsNotice(s)
    ensures Words(LowerStr(s)) == NoticeWords
  {
    assert s == s[..|Head|] + s[|Head|..];
    LowerAppend(Head, Message);
    HeadLowered(Head);
    MessageLowered(Message);
    HeadWords(LowerMessage);
    LowerMessageWords(LowerMessage);
  }

  /** A city and a token that differ at one of the compared places do not agree. */
  lemma DiffersAt(city: string, word: string, k: nat)
    requires k < Min(FixedMatchLen, |city|) && k < |word| && Lower(city[k]) != word[k]
    ensures !CityMatchesWord(city, word)
  {
    CityMatchesWordIff(city, word);
  }

  /** Only three other canonical cities begin with `k` or `i`. */
  lemma CityInitials(city: string)
    requires city in CanonicalCities && city != "Iisalmi"
    ensures |city| >= 5
    ensures city == "Karttula" || city == "Keitele" || city == "Kiuruvesi" || (Lower(city[0]) != 'k' && Lower(city[0]) != 'i' && !IsDigit(Lower(city[0])))
  {
  }

  /** What the words of the notice begin with. */
  lemma WordInitials(word: string)
    requires word in NoticeWords
    ensures word != [] && (word[0] == 'k' || word[0] == 'i' || IsDigit(word[0]))
    ensures word[0] == 'k' && word != "klo" && word != "keskiviikkona" ==> |word| > 2 && word[1] == 'a' && word[2] != 'r'
    ensures word == "keskiviikkona" ==> word[1] == 'e' && word[2] == 's'
    ensures word == "klo" ==> word[1] == 'l'
    ensures word[0] == 'k' ==> |word| > 2 && word[1] != 'i' && (word[1] == 'e' ==> word == "keskiviikkona")
  {
  }

  /** No other canonical city agrees with a word of the notice. */
  lemma OtherCity(city: string, word: string)
    requires city in CanonicalCities && city != "Iisalmi" && word in NoticeWords
    ensures !CityMatchesWord(city, word)
  {
    CityInitials(city);
    WordInitials(word);
    if Lower(city[0]) != word[0] {
      DiffersAt(city, word, 0);
    } else if city == "Karttula" {
      if word != "klo" && word != "keskiviikkona" { DiffersAt(city, word, 2); } else { DiffersAt(city, word, 1); }
    } else if city == "Keitele" {
      if word == "keskiviikkona" { DiffersAt(city, word, 2); } else { DiffersAt(city, word, 1); }
    } else {
      DiffersAt(city, word, 1);
    }
  }

  /** Given tokens taken from the words of the notice, only Iisalmi can agree with one. */
  lemma NoOtherCity(words: seq<string>)
    requires forall k :: 0 <= k < |words| ==> words[k] in NoticeWords
    ensures forall c :: c in CanonicalCities && c != "Iisalmi" ==> !CityMatches(c, words)
  {
    forall c, k | c in CanonicalCities && c != "Iisalmi" && 0 <= k < |words| ensures !CityMatchesWord(c, words[k]) {
      OtherCity(c, words[k]);
    }
  }

  /** When exactly one city agrees with a token, that city is the location. */
  lemma OnlyCityMatches(cs: seq<string>, words: seq<string>, c: string)
    requires c in cs && CityMatches(c, words)
    requires forall d :: d in cs && d != c ==> !CityMatches(d, words)
    ensures FirstMatch(SortByLengthDesc(cs), words) == Some(c)
  {
    var sorted := SortByLengthDesc(cs);
    SortKeepsCities(cs);
    var j :| 0 <= j < |sorted| && sorted[j] == c;
  }

  lemma IisalmessaIsToken()
    ensures IsCityToken("iisalmessa") && NoticeWords[9] == "iisalmessa" && |NoticeWords| == 10
  {
  }

  /** The tokens are among the words, and a word that is a token is among them. */
  lemma TokensFrom(ws: seq<string>, words: seq<string>, w: string)
    requires words == Filter(ws, IsCityToken) && |ws| == 10 && ws[9] == w && IsCityToken(w)
    ensures forall k :: 0 <= k < |words| ==> words[k] in ws
    ensures w in words
  {
    assert w in ws;
  }

  /** Every token of the notice is one of its words, and `iisalmessa` is a token. */
  lemma NoticeTokens(s: string, words: seq<string>)
    requires IsNotice(s) && words == EntryWords(s)
    ensures forall k :: 0 <= k < |words| ==> words[k] in NoticeWords
    ensures "iisalmessa" in words
  {
    NoticeWordsLowered(s);
    IisalmessaIsToken();
    TokensFrom(Words(LowerStr(s)), words, "iisalmessa");
  }

  /** Iisalmi is the location: its first five letters begin `iisalmessa`, and no other city agrees with a token. */
  lemma NoticeLocation(s: string, cities: seq<string>)
    requires IsNotice(s) && cities == CanonicalCities
    ensures Location(s, cities) == Some("Iisalmi")
  {
    var words := EntryWords(s);
    NoticeTokens(s, words);
    var i :| 0 <= i < |words| && words[i] == "iisalmessa";
    assert CityMatchesWord("Iisalmi", words[i]);
    NoOtherCity(words);
    OnlyCityMatches(cities, words, "Iisalmi");
  }
}
