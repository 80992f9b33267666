/**
 * Character classes and string primitives behind the parsers' regular
 * expressions and string methods.
 *
 * Python's `\d`, `\s`, `\w` and `str.lower()` are Unicode-aware; the classes
 * below agree with them on every character up to U+00FF (ASCII and Latin-1,
 * which covers Finnish text) and treat every character above U+00FF as a
 * non-digit, non-word character that lower-casing leaves alone. Whitespace is
 * exact for all of Unicode.
 */
module Text {

  function Min(a: nat, b: nat): nat { if a <= b then a else b }

  /** `\d`: an ASCII decimal digit. */
  predicate IsDigit(c: char) { '0' <= c <= '9' }

  /** `\s` in a str pattern, which is `str.isspace()`; it includes the no-break space U+00A0. */
  predicate IsSpace(c: char) {
    || '\t' <= c <= '\r'
    || '\U{1C}' <= c <= ' '
    || c == '\U{85}' || c == '\U{A0}' || c == '\U{1680}'
    || '\U{2000}' <= c <= '\U{200A}'
    || c == '\U{2028}' || c == '\U{2029}' || c == '\U{202F}' || c == '\U{205F}' || c == '\U{3000}'
  }

  /** `\w`: a character for which `str.isalnum()` holds, or `_`. */
  predicate IsWordChar(c: char) {
    || IsDigit(c) || 'a' <= c <= 'z' || 'A' <= c <= 'Z' || c == '_'
    || c == '\U{AA}' || c == '\U{B2}' || c == '\U{B3}' || c == '\U{B5}'
    || c == '\U{B9}' || c == '\U{BA}' || '\U{BC}' <= c <= '\U{BE}'
    || ('\U{C0}' <= c <= '\U{FF}' && c != '\U{D7}' && c != '\U{F7}')
  }

  /** `str.lower()` on one character: A-Z and the Latin-1 capitals À-Þ (but not ×). */
  function Lower(c: char): (r: char)
    ensures IsWordChar(r) == IsWordChar(c)
  {
    if 'A' <= c <= 'Z' || ('\U{C0}' <= c <= '\U{DE}' && c != '\U{D7}') then (c as int + 32) as char else c
  }

  /** `str.lower()`. */
  function LowerStr(s: string): (r: string)
    ensures |r| == |s|
    ensures forall k :: 0 <= k < |s| ==> r[k] == Lower(s[k])
  {
    seq(|s|, k requires 0 <= k < |s| => Lower(s[k]))
  }

  /** Case-insensitive match of the lower-case literal `lit` at position `i` of `s`. */
  predicate StartsWithCI(s: string, i: nat, lit: string) {
    i + |lit| <= |s| && forall k :: 0 <= k < |lit| ==> Lower(s[i + k]) == lit[k]
  }

  predicate AllDigits(s: string) { forall k {:trigger IsDigit(s[k])} :: 0 <= k < |s| ==> IsDigit(s[k]) }

  /**
   * The end of the longest run of characters satisfying `p` that starts at
   * `i`: where a greedy `[...]*` stops.
   */
  function Span(s: string, i: nat, p: char -> bool): (j: nat)
    requires i <= |s|
    ensures i <= j <= |s|
    ensures forall k :: i <= k < j ==> p(s[k])
    ensures j == |s| || !p(s[j])
    decreases |s| - i
  {
    if i < |s| && p(s[i]) then Span(s, i + 1, p) else i
  }

  /** A run is determined by its characters alone: dropping a prefix of `s` shifts it. */
  lemma {:induction false} SpanShift(s: string, i: nat, j: nat, p: char -> bool)
    requires i <= j <= |s|
    ensures Span(s[i..], j - i, p) + i == Span(s, j, p)
    decreases |s| - j
  {
    if j < |s| && p(s[j]) {
      assert s[i..][j - i] == s[j];
      SpanShift(s, i, j + 1, p);
    }
  }

  /** Any run of `p`-characters from `i` to `j` lies inside the span. */
  lemma {:induction false} SpanCovers(s: string, i: nat, j: nat, p: char -> bool)
    requires i <= j <= |s|
    requires forall k :: i <= k < j ==> p(s[k])
    ensures j <= Span(s, i, p)
    decreases j - i
  {
    if i < j {
      SpanCovers(s, i + 1, j, p);
    }
  }

  /** Position after the whitespace run at `i`: what a greedy `\s*` consumes. */
  function SkipSpaces(s: string, i: nat): (j: nat)
    requires i <= |s|
    ensures i <= j <= |s|
    ensures forall k {:trigger IsSpace(s[k])} :: i <= k < j ==> IsSpace(s[k])
    ensures j == |s| || !IsSpace(s[j])
    decreases |s| - i
  {
    if i < |s| && IsSpace(s[i]) then SkipSpaces(s, i + 1) else i
  }

  predicate NotNewline(c: char) { c != '\n' }

  /** What `(.*)` captures from `i`: everything up to the first newline. */
  function LineFrom(s: string, i: nat): (r: string)
    requires i <= |s|
    ensures '\n' !in r
    ensures r <= s[i..]
    ensures i + |r| == |s| || s[i + |r|] == '\n'
  {
    var j := Span(s, i, NotNewline);
    assert forall k :: 0 <= k < j - i ==> s[i..j][k] == s[i + k];
    s[i..j]
  }

  /** Position where the trailing whitespace of `s[..j]` begins. */
  function TrailingSpaceStart(s: string, j: nat): (i: nat)
    requires j <= |s|
    ensures i <= j
    ensures forall k {:trigger IsSpace(s[k])} :: i <= k < j ==> IsSpace(s[k])
    ensures i == 0 || !IsSpace(s[i - 1])
  {
    if j > 0 && IsSpace(s[j - 1]) then TrailingSpaceStart(s, j - 1) else j
  }

  /**
   * `str.strip()`: drop leading and trailing whitespace. The result is the
   * slice from the first non-space on, up to and including the last
   * non-space; it is empty exactly when `s` is all whitespace.
   */
  function Strip(s: string): (r: string)
    ensures r == [] <==> forall k {:trigger IsSpace(s[k])} :: 0 <= k < |s| ==> IsSpace(s[k])
    ensures r != [] ==> !IsSpace(r[0]) && !IsSpace(r[|r| - 1])
    ensures SkipSpaces(s, 0) + |r| <= |s| && r == s[SkipSpaces(s, 0)..SkipSpaces(s, 0) + |r|]
    ensures forall k {:trigger IsSpace(s[k])} :: SkipSpaces(s, 0) + |r| <= k < |s| ==> IsSpace(s[k])
  {
    var i := SkipSpaces(s, 0);
    var j := TrailingSpaceStart(s, |s|);
    if i < j then s[i..j]
    else
      assert forall k {:trigger IsSpace(s[k])} :: 0 <= k < |s| ==> IsSpace(s[k]) by {
        forall k | 0 <= k < |s| ensures IsSpace(s[k]) {
          assert k < i || j <= k;
        }
      }
      []
  }

  predicate IsDotOrBlank(c: char) { c == '.' || c == ' ' }

  /** `str.lstrip(". ")`: drop leading dots and (ASCII) spaces. */
  function LStripDotsAndSpaces(s: string): (r: string)
    ensures |r| <= |s| && r == s[|s| - |r|..]
    ensures forall k {:trigger IsDotOrBlank(s[k])} :: 0 <= k < |s| - |r| ==> IsDotOrBlank(s[k])
    ensures r == [] || !IsDotOrBlank(r[0])
  {
    s[Span(s, 0, IsDotOrBlank)..]
  }

  /** `sep.join(parts)` for a one-character separator. */
  function Join(parts: seq<string>, sep: char): string
    requires |parts| >= 1
  {
    if |parts| == 1 then parts[0] else parts[0] + [sep] + Join(parts[1..], sep)
  }

  /**
   * `str.split(sep)` for a one-character separator: the pieces between the
   * separators, none of which holds one, which joined with `sep` give `s`.
   */
  function Split(s: string, sep: char): (parts: seq<string>)
    ensures |parts| >= 1
    ensures Join(parts, sep) == s
    ensures forall k :: 0 <= k < |parts| ==> sep !in parts[k]
    decreases |s|
  {
    var i := Span(s, 0, c => c != sep);
    assert sep !in s[..i] by {
      forall k | 0 <= k < i ensures s[..i][k] != sep { assert s[..i][k] == s[k]; }
    }
    if i == |s| then
      assert s[..i] == s;
      [s]
    else
      var rest := Split(s[i + 1..], sep);
      assert s == s[..i] + [sep] + s[i + 1..];
      assert ([s[..i]] + rest)[1..] == rest;
      [s[..i]] + rest
  }

  lemma SplitNoSeparator(x: string, sep: char)
    requires sep !in x
    ensures Split(x, sep) == [x]
  {
    SpanCovers(x, 0, |x|, c => c != sep);
  }

  lemma SplitFirst(x: string, sep: char, rest: string)
    requires sep !in x
    ensures Split(x + [sep] + rest, sep) == [x] + Split(rest, sep)
  {
    var s := x + [sep] + rest;
    SpanCovers(s, 0, |x|, c => c != sep);
    assert s[|x|] == sep;
    assert s[..|x|] == x;
    assert s[|x| + 1..] == rest;
  }

  /** Splitting pieces that hold no separator, once joined, gives the pieces back. */
  lemma {:induction false} SplitJoin(parts: seq<string>, sep: char)
    requires |parts| >= 1 && forall k :: 0 <= k < |parts| ==> sep !in parts[k]
    ensures Split(Join(parts, sep), sep) == parts
    decreases |parts|
  {
    if |parts| == 1 {
      SplitNoSeparator(parts[0], sep);
    } else {
      SplitJoin(parts[1..], sep);
      SplitFirst(parts[0], sep, Join(parts[1..], sep));
      assert [parts[0]] + parts[1..] == parts;
    }
  }

  // ---- decimal numbers: `int()` on digit strings and `str()` on integers ----

  function DigitValue(c: char): nat
    requires IsDigit(c)
  {
    c as int - '0' as int
  }

  function DigitChar(d: nat): (c: char)
    requires d < 10
    ensures IsDigit(c) && DigitValue(c) == d
  {
    ('0' as int + d) as char
  }

  /** `int(s)` for a non-empty string of ASCII digits. */
  function ParseNat(s: string): nat
    requires AllDigits(s)
    decreases |s|
  {
    if s == [] then 0 else 10 * ParseNat(s[..|s| - 1]) + DigitValue(s[|s| - 1])
  }

  /** `str(n)` for a natural number. */
  function NatToString(n: nat): (r: string)
    ensures |r| >= 1 && AllDigits(r)
  {
    if n < 10 then [DigitChar(n)] else NatToString(n / 10) + [DigitChar(n % 10)]
  }

  /** `str(i)` for an integer: a minus sign before the digits of a negative number. */
  function IntToString(i: int): (r: string)
    ensures |r| >= 1
    ensures i >= 0 <==> AllDigits(r)
  {
    if i < 0 then
      var r := "-" + NatToString(-i);
      assert !IsDigit(r[0]);
      r
    else NatToString(i)
  }

  /** `int(str(n)) == n`. */
  lemma {:induction false} ParseNatToString(n: nat)
    ensures ParseNat(NatToString(n)) == n
  {
    var r := NatToString(n);
    if n >= 10 {
      ParseNatToString(n / 10);
      assert r[..|r| - 1] == NatToString(n / 10);
    }
  }

  // ---- words: maximal runs of `\w` characters ----

  /** End of the word that runs on from `i`. */
  function WordEnd(s: string, i: nat): (e: nat)
    requires i <= |s|
    ensures i <= e <= |s|
  {
    Span(s, i, IsWordChar)
  }

  /** `i` is the first character of a word. */
  predicate WordStart(s: string, i: nat) {
    i < |s| && IsWordChar(s[i]) && (i == 0 || !IsWordChar(s[i - 1]))
  }

  /** `\b` at position `i`: exactly one side of `i` is a word character. */
  predicate Boundary(s: string, i: nat) {
    (0 < i <= |s| && IsWordChar(s[i - 1])) != (i < |s| && IsWordChar(s[i]))
  }

  predicate AllWordChars(w: string) { forall k :: 0 <= k < |w| ==> IsWordChar(w[k]) }

  /** Reference tokenizer: the maximal word-character runs of `s`, in order. */
  function Words(s: string): (ws: seq<string>)
    ensures forall k :: 0 <= k < |ws| ==> ws[k] != [] && AllWordChars(ws[k])
    decreases |s|
  {
    if s == [] then []
    else if !IsWordChar(s[0]) then Words(s[1..])
    else
      var n := WordEnd(s, 0);
      assert forall k :: 0 <= k < n ==> s[..n][k] == s[k];
      [s[..n]] + Words(s[n..])
  }

  /** Unfolding `Words` at a word of length `n` at the front of `s`. */
  lemma WordsHead(s: string, n: nat)
    requires 0 < n <= |s| && AllWordChars(s[..n]) && (n == |s| || !IsWordChar(s[n]))
    ensures Words(s) == [s[..n]] + Words(s[n..])
  {
    assert forall k :: 0 <= k < n ==> s[..n][k] == s[k];
    SpanCovers(s, 0, n, IsWordChar);
  }

  /** Unfolding `Words` at a non-word character at the front of `s`. */
  lemma WordsSkip(s: string)
    requires s != [] && !IsWordChar(s[0])
    ensures Words(s) == Words(s[1..])
  {
  }

  /** A word, a separator, and the rest: the word is the first token. */
  lemma WordsWordThenSeparator(w: string, c: char, rest: string)
    requires w != [] && AllWordChars(w) && !IsWordChar(c)
    ensures Words(w + [c] + rest) == [w] + Words(rest)
  {
    var s := w + [c] + rest;
    assert s[..|w|] == w;
    WordsHead(s, |w|);
    assert s[|w|..] == [c] + rest;
    WordsSkip(s[|w|..]);
    assert s[|w|..][1..] == rest;
  }

  /** A single word is its own only token. */
  lemma WordsSingleWord(w: string)
    requires w != [] && AllWordChars(w)
    ensures Words(w) == [w]
  {
    assert w[..|w|] == w;
    WordsHead(w, |w|);
    assert w[|w|..] == [];
  }

  /** The words satisfying `keep`, in order, duplicates kept. */
  function Filter(ws: seq<string>, keep: string -> bool): (r: seq<string>)
    ensures |r| <= |ws|
    ensures forall w :: w in r <==> w in ws && keep(w)
  {
    if ws == [] then [] else (if keep(ws[0]) then [ws[0]] else []) + Filter(ws[1..], keep)
  }

  /**
   * `re.findall` with a pattern that matches at `i` exactly when a word starts
   * at `i` and satisfies `keep`, and then always spans that whole word: try
   * each position in turn and resume after each match.
   */
  function FindWordsFrom(s: string, i: nat, keep: string -> bool): seq<string>
    requires i <= |s|
    decreases |s| - i
  {
    if i == |s| then []
    else if WordStart(s, i) && keep(s[i..WordEnd(s, i)]) then
      [s[i..WordEnd(s, i)]] + FindWordsFrom(s, WordEnd(s, i), keep)
    else FindWordsFrom(s, i + 1, keep)
  }

  /** Inside a word the scan finds nothing before that word ends. */
  lemma {:induction false} SkipInsideWord(s: string, i: nat, keep: string -> bool)
    requires 0 < i <= |s| && IsWordChar(s[i - 1])
    ensures FindWordsFrom(s, i, keep) == FindWordsFrom(s, WordEnd(s, i), keep)
    decreases |s| - i
  {
    if i < |s| && IsWordChar(s[i]) {
      SkipInsideWord(s, i + 1, keep);
    }
  }

  /** At the first character of a word, `Words` yields that word and then the words after it. */
  lemma WordsAtWordStart(s: string, i: nat)
    requires i < |s| && IsWordChar(s[i])
    ensures Words(s[i..]) == [s[i..WordEnd(s, i)]] + Words(s[WordEnd(s, i)..])
  {
    var e := WordEnd(s, i);
    SpanShift(s, i, i, IsWordChar);
    assert s[i..][..e - i] == s[i..e];
    assert s[i..][e - i..] == s[e..];
  }

  lemma {:induction false} FindWordsFromOutside(s: string, i: nat, keep: string -> bool)
    requires i <= |s|
    requires i == 0 || i == |s| || !IsWordChar(s[i - 1]) || !IsWordChar(s[i])
    ensures FindWordsFrom(s, i, keep) == Filter(Words(s[i..]), keep)
    decreases |s| - i
  {
    if i == |s| {
      assert s[i..] == [];
    } else if !IsWordChar(s[i]) {
      assert s[i..][1..] == s[i + 1..];
      FindWordsFromOutside(s, i + 1, keep);
    } else {
      FindWordsFromOutside(s, WordEnd(s, i), keep);
      FindWordsAtWord(s, i, keep);
    }
  }

  /** The scan at the first character of a word, given the scan after that word. */
  lemma FindWordsAtWord(s: string, i: nat, keep: string -> bool)
    requires i < |s| && IsWordChar(s[i]) && (i == 0 || !IsWordChar(s[i - 1]))
    requires FindWordsFrom(s, WordEnd(s, i), keep) == Filter(Words(s[WordEnd(s, i)..]), keep)
    ensures FindWordsFrom(s, i, keep) == Filter(Words(s[i..]), keep)
  {
    var e := WordEnd(s, i);
    WordsAtWordStart(s, i);
    if !keep(s[i..e]) {
      SkipInsideWord(s, i + 1, keep);
      assert WordEnd(s, i + 1) == e;
    }
  }

  /** The findall scan returns exactly the words of `s` that satisfy `keep`, in text order. */
  lemma FindWordsIsFilteredWords(s: string, keep: string -> bool)
    ensures FindWordsFrom(s, 0, keep) == Filter(Words(s), keep)
  {
    FindWordsFromOutside(s, 0, keep);
    assert s[0..] == s;
  }

  // ---- sequences ----

  /** A non-empty sequence appended to `a` is `a` and its front, then its last element. */
  lemma SplitLast<T>(a: seq<T>, b: seq<T>)
    requires b != []
    ensures b == b[..|b| - 1] + [b[|b| - 1]]
    ensures a + b == (a + b[..|b| - 1]) + [b[|b| - 1]]
  {
  }

  /** The first `i + 1` elements are the first `i`, then element `i`. */
  lemma TakeOneMore<T>(s: seq<T>, i: nat)
    requires i < |s|
    ensures s[..i + 1] == s[..i] + [s[i]]
  {
  }

  /** Joining three sequences does not depend on the grouping. */
  lemma AppendAssoc<T>(a: seq<T>, b: seq<T>, c: seq<T>)
    ensures (a + b) + c == a + (b + c)
  {
  }
}
