/**
 * Tag extraction, `filter_prefix_keywords` in processors/json_processor.py:
 * `re.findall(r'\b((?:kauko|huol|...|per)\w*)\b', text, re.IGNORECASE)`.
 */
module Keywords {
  import opened Text

  /** The twelve keyword stems, in the order the alternation lists them. */
  const Prefixes: seq<string> :=
    ["kauko", "huol", "jake", "saneer", "lämmö", "kesk", "vahin", "kaiv", "sähk", "vaurio", "korj", "per"]

  /** `w` begins, ignoring case, with one of the stems. */
  predicate IsKeyword(w: string) {
    exists j :: 0 <= j < |Prefixes| && StartsWithCI(w, 0, Prefixes[j])
  }

  /**
   * The pattern matches `s[i..e]`: a word boundary, one of the stems (ignoring
   * case), any further word characters, and a word boundary again.
   */
  ghost predicate KeywordPatternMatches(s: string, i: nat, e: nat)
    requires i <= e <= |s|
  {
    && Boundary(s, i)
    && (exists j :: 0 <= j < |Prefixes| && StartsWithCI(s, i, Prefixes[j]) && i + |Prefixes[j]| <= e
                    && forall k :: i + |Prefixes[j]| <= k < e ==> IsWordChar(s[k]))
    && Boundary(s, e)
  }

  lemma StemLettersAreWordChars(j: nat, k: nat)
    requires j < |Prefixes| && k < |Prefixes[j]|
    ensures IsWordChar(Prefixes[j][k])
  {
  }

  /** A stem matched at `i` lies inside the word that starts there. */
  lemma StemInsideWord(s: string, i: nat, j: nat)
    requires i <= |s| && j < |Prefixes| && StartsWithCI(s, i, Prefixes[j])
    ensures forall k :: i <= k < i + |Prefixes[j]| ==> IsWordChar(s[k])
    ensures i < |s| && i + |Prefixes[j]| <= WordEnd(s, i)
  {
    forall k | i <= k < i + |Prefixes[j]| ensures IsWordChar(s[k]) {
      StemLettersAreWordChars(j, k - i);
      assert Lower(s[i + (k - i)]) == Prefixes[j][k - i];
    }
    SpanCovers(s, i, i + |Prefixes[j]|, IsWordChar);
  }

  /**
   * The pattern matches at `i` exactly when a word starts at `i` and begins
   * with a stem, and the match is then that whole word.
   */
  lemma KeywordPatternIsWholeKeyword(s: string, i: nat, e: nat)
    requires i <= e <= |s|
    ensures KeywordPatternMatches(s, i, e) <==> WordStart(s, i) && e == WordEnd(s, i) && IsKeyword(s[i..e])
  {
    if KeywordPatternMatches(s, i, e) {
      MatchIsWholeKeyword(s, i, e);
    }
    if WordStart(s, i) && e == WordEnd(s, i) && IsKeyword(s[i..e]) {
      WholeKeywordMatches(s, i, e);
    }
  }

  lemma MatchIsWholeKeyword(s: string, i: nat, e: nat)
    requires i <= e <= |s| && KeywordPatternMatches(s, i, e)
    ensures WordStart(s, i) && e == WordEnd(s, i) && IsKeyword(s[i..e])
  {
    var j :| 0 <= j < |Prefixes| && StartsWithCI(s, i, Prefixes[j]) && i + |Prefixes[j]| <= e
              && forall k :: i + |Prefixes[j]| <= k < e ==> IsWordChar(s[k]);
    StemInsideWord(s, i, j);
    SpanCovers(s, i, e, IsWordChar);
    assert StartsWithCI(s[i..e], 0, Prefixes[j]) by {
      forall k | 0 <= k < |Prefixes[j]| ensures Lower(s[i..e][k]) == Prefixes[j][k] {
        assert s[i..e][k] == s[i + k];
      }
    }
  }

  lemma WholeKeywordMatches(s: string, i: nat, e: nat)
    requires i <= e <= |s| && WordStart(s, i) && e == WordEnd(s, i) && IsKeyword(s[i..e])
    ensures KeywordPatternMatches(s, i, e)
  {
    var j :| 0 <= j < |Prefixes| && StartsWithCI(s[i..e], 0, Prefixes[j]);
    assert StartsWithCI(s, i, Prefixes[j]) by {
      forall k | 0 <= k < |Prefixes[j]| ensures Lower(s[i + k]) == Prefixes[j][k] {
        assert s[i..e][k] == s[i + k];
      }
    }
  }

  /**
   * `filter_prefix_keywords`: the findall scan. It returns, in text order and
   * with duplicates, exactly the words of the text (maximal runs of word
   * characters) that begin, ignoring case, with one of the stems.
   */
  function FilterPrefixKeywords(tagsText: string): (tags: seq<string>)
    ensures tags == Filter(Words(tagsText), IsKeyword)
    ensures forall t :: t in tags ==> t in Words(tagsText) && IsKeyword(t) && t != [] && AllWordChars(t)
  {
    FindWordsIsFilteredWords(tagsText, IsKeyword);
    FindWordsFrom(tagsText, 0, IsKeyword)
  }

  lemma ExampleWords()
    ensures Words("huoltotyön vuoksi sähkökatko") == ["huoltotyön", "vuoksi", "sähkökatko"]
  {
    var a, b, c := "huoltotyön", "vuoksi", "sähkökatko";
    assert AllWordChars(a) && AllWordChars(b) && AllWordChars(c);
    assert "huoltotyön vuoksi sähkökatko" == a + [' '] + (b + [' '] + c);
    ThreeWords(a, b, c);
  }

  lemma ThreeWords(a: string, b: string, c: string)
    requires a != [] && b != [] && c != [] && AllWordChars(a) && AllWordChars(b) && AllWordChars(c)
    ensures Words(a + [' '] + (b + [' '] + c)) == [a, b, c]
  {
    WordsWordThenSeparator(a, ' ', b + [' '] + c);
    WordsWordThenSeparator(b, ' ', c);
    WordsSingleWord(c);
  }

  lemma ExampleKeywordTests()
    ensures IsKeyword("huoltotyön") && !IsKeyword("vuoksi") && IsKeyword("sähkökatko")
  {
    assert StartsWithCI("huoltotyön", 0, Prefixes[1]);
    assert StartsWithCI("sähkökatko", 0, Prefixes[8]);
    assert forall j :: 0 <= j < |Prefixes| ==> Prefixes[j][0] != 'v' || Prefixes[j][1] == 'a';
  }

  lemma ExampleTags(s: string)
    requires s == "huoltotyön vuoksi sähkökatko"
    ensures FilterPrefixKeywords(s) == ["huoltotyön", "sähkökatko"]
  {
    ExampleWords();
    ExampleKeywordTests();
    FilterKeepsFirstAndLast("huoltotyön", "vuoksi", "sähkökatko");
  }

  lemma FilterKeepsFirstAndLast(a: string, b: string, c: string)
    requires IsKeyword(a) && !IsKeyword(b) && IsKeyword(c)
    ensures Filter([a, b, c], IsKeyword) == [a, c]
  {
    var ws := [a, b, c];
    assert ws[1..] == [b, c] && ws[1..][1..] == [c] && ws[1..][1..][1..] == [];
  }

  /** The worked example: maintenance work and an outage are the two tags of this tail. */
  lemma FilterPrefixKeywordsExample()
    ensures FilterPrefixKeywords("huoltotyön vuoksi sähkökatko") == ["huoltotyön", "sähkökatko"]
  {
    ExampleTags("huoltotyön vuoksi sähkökatko");
  }
}
