/** Fuzzy scoring of search documents: text reduced to words, similarity of trigram sets, and the best
    of all windows of about the query's length (internal/searchindex/service.go). Text is a sequence
    of runes. */
module FuzzySearch {
  import opened Common
  import opened TextFields

  /** unicode.ToLower and unicode.IsLetter or IsNumber. */
  datatype Alphabet = Alphabet(lower: char -> char, word: char -> bool)

  /** What the search relies on: lower case stays lower case, no letter or number is white space, and
      a space does not become one. */
  ghost predicate Regular(a: Alphabet) {
    && (forall c :: a.lower(a.lower(c)) == a.lower(c) && (a.word(c) ==> !IsSpace(c)))
    && !a.word(a.lower(' '))
  }

  // --------------------------------------------------------------- normalisation

  /** The words of a text, and whether the last of them is still growing. */
  datatype Scan = Scan(words: seq<string>, open: bool)

  function Scanned(a: Alphabet, text: string): (s: Scan)
    ensures s.open ==> s.words != []
  {
    if text == "" then Scan([], false)
    else
      var before, c := Scanned(a, text[..|text| - 1]), a.lower(text[|text| - 1]);
      if !a.word(c) then Scan(before.words, false)
      else if before.open then Scan(Grown(before.words, c), true)
      else Scan(before.words + [[c]], true)
  }

  function Grown(words: seq<string>, c: char): (grown: seq<string>)
    requires words != []
    ensures grown != []
  {
    words[..|words| - 1] + [words[|words| - 1] + [c]]
  }

  /** The maximal runs of letters and numbers, in lower case. */
  function Tokens(a: Alphabet, text: string): seq<string> {
    Scanned(a, text).words
  }

  function Normalized(a: Alphabet, text: string): string {
    Spaced(Tokens(a, text))
  }

  /** A word as normalisation leaves it. */
  predicate IsToken(a: Alphabet, w: string) {
    w != "" && forall i :: 0 <= i < |w| ==> a.word(w[i]) && a.lower(w[i]) == w[i]
  }

  lemma {:induction false} TokensAreTokens(a: Alphabet, text: string)
    requires Regular(a)
    ensures forall w | w in Tokens(a, text) :: IsToken(a, w)
  {
    if text != "" {
      var before, c := Scanned(a, text[..|text| - 1]), a.lower(text[|text| - 1]);
      TokensAreTokens(a, text[..|text| - 1]);
      if a.word(c) {
        assert IsToken(a, [c]);
        if before.open {
          var last := before.words[|before.words| - 1];
          assert last in before.words;
          assert IsToken(a, last + [c]);
        }
      }
    }
  }

  lemma TokensAreWords(a: Alphabet, words: seq<string>)
    requires Regular(a) && forall w | w in words :: IsToken(a, w)
    ensures forall w | w in words :: IsWord(w)
  {
  }

  /** What the builder holds: a word that ended is followed by a space. */
  function Written(s: Scan): string {
    if s.words == [] || s.open then Spaced(s.words) else Spaced(s.words) + " "
  }

  lemma {:induction false} SpacedAppend(words: seq<string>, w: string)
    ensures Spaced(words + [w]) == if words == [] then w else Spaced(words) + " " + w
  {
    if words == [] {
      assert words + [w] == [w];
    } else {
      assert (words + [w])[1..] == words[1..] + [w];
      SpacedAppend(words[1..], w);
      if |words| == 1 {
        assert Spaced(words + [w]) == words[0] + (" " + w);
      } else {
        assert Spaced(words + [w]) == words[0] + (" " + (Spaced(words[1..]) + " " + w));
      }
    }
  }

  lemma SpacedGrown(words: seq<string>, c: char)
    requires words != []
    ensures Spaced(Grown(words, c)) == Spaced(words) + [c]
  {
    var init, last := words[..|words| - 1], words[|words| - 1];
    SpacedAppend(init, last);
    SpacedAppend(init, last + [c]);
    assert words == init + [last];
    if init != [] {
      assert Spaced(init) + " " + (last + [c]) == Spaced(init) + " " + last + [c];
    }
  }

  /** One rune more in the builder. */
  lemma WrittenOneMore(a: Alphabet, text: string, k: nat)
    requires k < |text|
    ensures var before, after, c := Scanned(a, text[..k]), Scanned(a, text[..k + 1]), a.lower(text[k]);
            && after.open == a.word(c)
            && Written(after) == Written(before) + (if a.word(c) then [c] else if before.open then " " else "")
  {
    assert text[..k + 1][..k] == text[..k];
    var before, c := Scanned(a, text[..k]), a.lower(text[k]);
    if a.word(c) {
      if before.open {
        SpacedGrown(before.words, c);
      } else {
        SpacedAppend(before.words, [c]);
      }
    }
  }

  lemma SpacedEnds(words: seq<string>)
    requires words != [] && forall w | w in words :: IsWord(w)
    ensures var s := Spaced(words); s != "" && !IsSpace(s[0]) && !IsSpace(s[|s| - 1])
  {
    var init, last := words[..|words| - 1], words[|words| - 1];
    assert words[0] in words && last in words;
    SpacedAppend(init, last);
    assert words == init + [last];
    if |words| > 1 {
      assert Spaced(words) == words[0] + (" " + Spaced(words[1..]));
    }
  }

  lemma TrimWritten(s: Scan)
    requires forall w | w in s.words :: IsWord(w)
    ensures TrimSpace(Written(s)) == Spaced(s.words)
  {
    if s.words != [] {
      var text := Spaced(s.words);
      SpacedEnds(s.words);
      TrimSpaceFixed(text);
      if !s.open {
        assert TrimLeft(text + " ") == text + " ";
        assert (text + " ")[..|text|] == text;
        assert TrimRight(text + " ") == TrimRight(text);
        assert TrimLeft(text) == text;
      }
    }
  }

  /** normalizeSearchText */
  method NormalizeSearchText(a: Alphabet, text: string) returns (normalized: string)
    requires Regular(a)
    ensures normalized == Normalized(a, text)
  {
    var b := "";
    var prevSpace := true;
    for k := 0 to |text|
      invariant b == Written(Scanned(a, text[..k])) && prevSpace == !Scanned(a, text[..k]).open
    {
      WrittenOneMore(a, text, k);
      var r := a.lower(text[k]);
      if a.word(r) {
        b := b + [r];
        prevSpace := false;
        continue;
      }
      if !prevSpace {
        b := b + " ";
        prevSpace := true;
      }
    }
    assert text[..|text|] == text;
    TokensAreTokens(a, text);
    TokensAreWords(a, Tokens(a, text));
    TrimWritten(Scanned(a, text));
    normalized := TrimSpace(b);
  }

  lemma ScanWordChar(a: Alphabet, text: string, c: char)
    requires a.word(c) && a.lower(c) == c
    ensures Scanned(a, text + [c])
            == if Scanned(a, text).open then Scan(Grown(Tokens(a, text), c), true) else Scan(Tokens(a, text) + [[c]], true)
  {
    assert (text + [c])[..|text|] == text;
  }

  /** Scanning a token behind a gap adds it as a word. */
  lemma {:induction false} ScanToken(a: Alphabet, text: string, w: string)
    requires IsToken(a, w) && !Scanned(a, text).open
    ensures Scanned(a, text + w) == Scan(Tokens(a, text) + [w], true)
  {
    var init, c := w[..|w| - 1], w[|w| - 1];
    assert w == init + [c];
    if init == "" {
      assert w == [c];
      ScanWordChar(a, text, c);
    } else {
      ScanToken(a, text, init);
      ScanWordChar(a, text + init, c);
      assert text + w == text + init + [c];
      GrownLast(Tokens(a, text), init, c);
    }
  }

  lemma GrownLast(words: seq<string>, last: string, c: char)
    ensures Grown(words + [last], c) == words + [last + [c]]
  {
  }

  lemma {:induction false} TokensOfSpaced(a: Alphabet, words: seq<string>)
    requires Regular(a) && forall w | w in words :: IsToken(a, w)
    ensures Tokens(a, Spaced(words)) == words
  {
    if words != [] {
      var init, last := words[..|words| - 1], words[|words| - 1];
      TokensOfSpaced(a, init);
      SpacedAppend(init, last);
      assert words == init + [last] && last in words;
      if init == [] {
        assert "" + last == last;
        ScanToken(a, "", last);
      } else {
        var gap := Spaced(init) + " ";
        assert gap[..|gap| - 1] == Spaced(init);
        ScanToken(a, gap, last);
      }
    }
  }

  /** Normalising twice is normalising once, and the words of a normalised text are its tokens. */
  lemma NormalizeIsIdempotent(a: Alphabet, text: string)
    requires Regular(a)
    ensures Normalized(a, Normalized(a, text)) == Normalized(a, text)
    ensures Fields(Normalized(a, text)) == Tokens(a, text)
  {
    TokensAreTokens(a, text);
    TokensOfSpaced(a, Tokens(a, text));
    TokensAreWords(a, Tokens(a, text));
    FieldsOfSpaced(Tokens(a, text));
  }

  // -------------------------------------------------------------------- trigrams

  function Padded(text: string): string {
    "  " + text + "  "
  }

  function Gram(runes: string, i: int): string
    requires 0 <= i && i + 3 <= |runes|
  {
    runes[i..i + 3]
  }

  function Trigrams(text: string): set<string> {
    set i | 0 <= i && i + 3 <= |Padded(text)| :: Gram(Padded(text), i)
  }

  /** For example: a text of one rune has three trigrams, as two spaces are added at each end. */
  lemma TrigramsOfOneRune(c: char)
    ensures Trigrams([c]) == {[' ', ' ', c], [' ', c, ' '], [c, ' ', ' ']}
  {
    var runes := Padded([c]);
    assert runes == [' ', ' ', c, ' ', ' '];
    assert Gram(runes, 0) == [' ', ' ', c] && Gram(runes, 1) == [' ', c, ' '] && Gram(runes, 2) == [c, ' ', ' '];
  }

  /** The trigrams are exactly the stretches of three runes of the text with two spaces at each end. */
  lemma TrigramsOf(text: string, g: string)
    ensures g in Trigrams(text) <==> exists a, b :: "  " + text + "  " == a + g + b && |g| == 3
  {
    var runes := Padded(text);
    if g in Trigrams(text) {
      var i :| 0 <= i && i + 3 <= |runes| && Gram(runes, i) == g;
      assert runes == runes[..i] + g + runes[i + 3..];
    }
    if a, b :| "  " + text + "  " == a + g + b && |g| == 3 {
      assert runes == a + g + b;
      assert Gram(runes, |a|) == g;
    }
  }

  /** trigramSet */
  method TrigramSet(text: string) returns (out: set<string>)
    ensures out == Trigrams(text)
  {
    var runes := Padded(text);
    out := {};
    var i := 0;
    while i + 3 <= |runes|
      invariant 0 <= i <= |runes| - 2
      invariant out == set j | 0 <= j < i && j + 3 <= |runes| :: Gram(runes, j)
    {
      out := out + {Gram(runes, i)};
      i := i + 1;
    }
  }

  function Similarity(x: string, y: string): real {
    if x == "" || y == "" then 0.0
    else if |Trigrams(x)| + |Trigrams(y)| == 0 then 0.0
    else 2.0 * |Trigrams(x) * Trigrams(y)| as real / (|Trigrams(x)| + |Trigrams(y)|) as real
  }

  lemma TrigramsNotEmpty(text: string)
    ensures Trigrams(text) != {} && |Trigrams(text)| > 0
  {
    assert Gram(Padded(text), 0) in Trigrams(text);
  }

  lemma SharedOneMore(x: set<string>, left: set<string>, y: set<string>, token: string)
    requires token in left && left <= x
    ensures |(x - (left - {token})) * y| == |(x - left) * y| + if token in y then 1 else 0
  {
    if token in y {
      assert (x - (left - {token})) * y == (x - left) * y + {token};
    } else {
      assert (x - (left - {token})) * y == (x - left) * y;
    }
  }

  /** trigramSimilarity */
  method TrigramSimilarity(x: string, y: string) returns (similarity: real)
    ensures similarity == Similarity(x, y)
  {
    if x == "" || y == "" {
      return 0.0;
    }
    var xSet := TrigramSet(x);
    var ySet := TrigramSet(y);
    TrigramsNotEmpty(x);
    TrigramsNotEmpty(y);
    var shared := 0;
    var left := xSet;
    while left != {}
      invariant left <= xSet && shared == |(xSet - left) * ySet|
    {
      var token :| token in left;
      SharedOneMore(xSet, left, ySet, token);
      if token in ySet {
        shared := shared + 1;
      }
      left := left - {token};
    }
    assert (xSet - left) * ySet == xSet * ySet;
    similarity := 2.0 * shared as real / (|xSet| + |ySet|) as real;
  }

  lemma IntersectionSize(x: set<string>, y: set<string>)
    ensures |x * y| <= |x| && |x * y| <= |y|
    ensures |x * y| == |x| == |y| <==> x == y
  {
    SubsetSize(x * y, x);
    SubsetSize(x * y, y);
    if x == y {
      assert x * y == x;
    }
  }

  lemma {:induction false} SubsetSize(x: set<string>, y: set<string>)
    requires x <= y
    ensures |x| <= |y| && (|x| == |y| ==> x == y)
  {
    assert y == x + (y - x);
    assert |y| == |x| + |y - x|;
  }

  /** Similarity is symmetric and lies between 0 and 1. It is 1 exactly for equal trigram sets of texts
      that are not empty, and 0 exactly for disjoint ones or an empty text. */
  lemma SimilarityBounds(x: string, y: string)
    ensures Similarity(x, y) == Similarity(y, x)
    ensures 0.0 <= Similarity(x, y) <= 1.0
    ensures Similarity(x, y) == 1.0 <==> x != "" && y != "" && Trigrams(x) == Trigrams(y)
    ensures Similarity(x, y) == 0.0 <==> x == "" || y == "" || Trigrams(x) * Trigrams(y) == {}
  {
    if x != "" && y != "" {
      SimilarityOfTexts(x, y);
    }
  }

  lemma SimilarityOfTexts(x: string, y: string)
    requires x != "" && y != ""
    ensures Similarity(x, y) == Similarity(y, x)
    ensures 0.0 <= Similarity(x, y) <= 1.0
    ensures Similarity(x, y) == 1.0 <==> Trigrams(x) == Trigrams(y)
    ensures Similarity(x, y) == 0.0 <==> Trigrams(x) * Trigrams(y) == {}
  {
    var a, b := Trigrams(x), Trigrams(y);
    TrigramsNotEmpty(x);
    TrigramsNotEmpty(y);
    IntersectionSize(a, b);
    assert a * b == b * a;
    Ratio(|a * b|, |a| + |b|);
  }

  lemma PositiveFactor(x: real, t: real)
    requires t > 0.0 && x * t > 0.0
    ensures x > 0.0
  {
  }

  lemma Quotient(s: real, t: real)
    requires t > 0.0 && 0.0 <= s <= t
    ensures 0.0 <= s / t <= 1.0 && (s / t == 1.0 <==> s == t) && (s / t == 0.0 <==> s == 0.0)
  {
    var u := s / t;
    assert u * t == s;
    if 0.0 < s {
      PositiveFactor(u, t);
    }
    if s < t {
      assert (1.0 - u) * t == t - s;
      PositiveFactor(1.0 - u, t);
    }
  }

  lemma Ratio(shared: nat, total: nat)
    requires total > 0 && 2 * shared <= total
    ensures var r := 2.0 * shared as real / total as real;
            0.0 <= r <= 1.0 && (r == 1.0 <==> 2 * shared == total) && (r == 0.0 <==> shared == 0)
  {
    assert 2.0 * shared as real == (2 * shared) as real;
    Quotient((2 * shared) as real, total as real);
  }

  // --------------------------------------------------------------------- windows

  /** One word fewer than the query has to two words more, as far as the text goes. */
  predicate IsSize(size: int, k: int, count: int) {
    Max(k - 1, 1) <= size <= k + 2 && size <= count
  }

  /** From one below the number of query words to two above, at least one and at most what the text has. */
  lemma SizesInNumbers(size: int, words: int, count: int)
    requires words >= 1
    ensures IsSize(size, words, count) <==> 1 <= size <= count && words - size <= 1 && size - words <= 2
  {
  }

  /** fuzzyWindowSizes */
  method FuzzyWindowSizes(normalizedQuery: string, textTokenCount: int) returns (sizes: seq<int>)
    ensures var k := Max(|Fields(normalizedQuery)|, 1);
            forall size :: size in sizes <==> IsSize(size, k, textTokenCount)
  {
    var windowSize := |Fields(normalizedQuery)|;
    if windowSize <= 0 {
      windowSize := 1;
    }
    var minWindow, maxWindow := Max(windowSize - 1, 1), Max(windowSize + 2, 1);
    sizes := [];
    var size := minWindow;
    while size <= maxWindow
      invariant minWindow <= size <= maxWindow + 1 && (size == minWindow || size - 1 <= textTokenCount)
      invariant forall s :: s in sizes <==> minWindow <= s < size
    {
      if size > textTokenCount {
        break;
      }
      sizes := sizes + [size];
      size := size + 1;
    }
  }

  function Window(tokens: seq<string>, size: int, i: int): string
    requires 0 <= size && 0 <= i && i + size <= |tokens|
  {
    Spaced(tokens[i..i + size])
  }

  /** best is the greatest of the starting score and the similarities of these windows. */
  ghost predicate IsBestOf(tokens: seq<string>, query: string, sizes: set<int>, start: real, best: real) {
    && best >= start
    && (forall size, i | size in sizes && 0 <= size && 0 <= i && i + size <= |tokens| ::
          Similarity(query, Window(tokens, size, i)) <= best)
    && (best == start
        || exists size, i | size in sizes && 0 <= size && 0 <= i && i + size <= |tokens| ::
             best == Similarity(query, Window(tokens, size, i)))
  }

  /** The same for the first windows of one size. */
  ghost predicate IsBestUpTo(tokens: seq<string>, query: string, size: nat, n: nat, start: real, best: real) {
    && best >= start
    && (forall i | 0 <= i < n && i + size <= |tokens| :: Similarity(query, Window(tokens, size, i)) <= best)
    && (best == start || exists i | 0 <= i < n && i + size <= |tokens| :: best == Similarity(query, Window(tokens, size, i)))
  }

  lemma OneWindowMore(tokens: seq<string>, query: string, size: nat, n: nat, start: real, best: real)
    requires n + size <= |tokens| && IsBestUpTo(tokens, query, size, n, start, best)
    ensures var score := Similarity(query, Window(tokens, size, n));
            IsBestUpTo(tokens, query, size, n + 1, start, if score > best then score else best)
  {
    var score := Similarity(query, Window(tokens, size, n));
    if score <= best && best != start {
      var i :| 0 <= i < n && i + size <= |tokens| && best == Similarity(query, Window(tokens, size, i));
    }
  }

  /** The windows of one size. */
  method BestOfSize(tokens: seq<string>, query: string, size: nat, start: real) returns (best: real)
    ensures IsBestOf(tokens, query, {size}, start, best)
  {
    best := start;
    var i := 0;
    while i + size <= |tokens|
      invariant 0 <= i && IsBestUpTo(tokens, query, size, i, start, best)
      decreases |tokens| - size - i
    {
      var candidate := Spaced(tokens[i..i + size]);
      var score := TrigramSimilarity(query, candidate);
      OneWindowMore(tokens, query, size, i, start, best);
      if score > best {
        best := score;
      }
      i := i + 1;
    }
  }

  lemma BestOfMore(tokens: seq<string>, query: string, sizes: set<int>, size: int, start: real, before: real, best: real)
    requires IsBestOf(tokens, query, sizes, start, before) && IsBestOf(tokens, query, {size}, before, best)
    ensures IsBestOf(tokens, query, sizes + {size}, start, best)
  {
  }

  function WindowSizes(query: string, count: int): set<int> {
    var k := Max(|Fields(query)|, 1);
    set size | Max(k - 1, 1) <= size <= k + 2 && IsSize(size, k, count)
  }

  function Members(sizes: seq<int>): set<int> {
    set size | size in sizes
  }

  lemma MembersOneMore(sizes: seq<int>, k: nat)
    requires k < |sizes|
    ensures Members(sizes[..k + 1]) == Members(sizes[..k]) + {sizes[k]}
  {
    assert sizes[..k + 1] == sizes[..k] + [sizes[k]];
  }

  method BestOfSizes(tokens: seq<string>, query: string, sizes: seq<int>, start: real) returns (best: real)
    requires forall k :: 0 <= k < |sizes| ==> sizes[k] >= 0
    ensures IsBestOf(tokens, query, Members(sizes), start, best)
  {
    best := start;
    for k := 0 to |sizes|
      invariant IsBestOf(tokens, query, Members(sizes[..k]), start, best)
    {
      ghost var before := best;
      best := BestOfSize(tokens, query, sizes[k], best);
      BestOfMore(tokens, query, Members(sizes[..k]), sizes[k], start, before, best);
      MembersOneMore(sizes, k);
    }
    assert sizes[..|sizes|] == sizes;
  }

  /** bestFuzzyWindowScore */
  method BestFuzzyWindowScore(text: string, query: string, start: real) returns (best: real)
    ensures IsBestOf(Fields(text), query, WindowSizes(query, |Fields(text)|), start, best)
  {
    var textTokens := Fields(text);
    best := start;
    if |textTokens| == 0 {
      return;
    }
    var sizes := FuzzyWindowSizes(query, |textTokens|);
    forall k | 0 <= k < |sizes| ensures sizes[k] >= 0 {
      assert sizes[k] in sizes;
    }
    best := BestOfSizes(textTokens, query, sizes, best);
    assert Members(sizes) == WindowSizes(query, |textTokens|);
  }

  /** fuzzyFieldScore */
  method FuzzyFieldScore(a: Alphabet, text: string, query: string) returns (score: real)
    requires Regular(a)
    ensures IsFuzzyScore(a, text, query, score)
  {
    var normalizedText := NormalizeSearchText(a, text);
    var normalizedQuery := NormalizeSearchText(a, query);
    if normalizedText == "" || normalizedQuery == "" {
      return 0.0;
    }
    var best := TrigramSimilarity(normalizedQuery, normalizedText);
    score := BestFuzzyWindowScore(normalizedText, normalizedQuery, best);
  }

  ghost predicate IsFuzzyScore(a: Alphabet, text: string, query: string, score: real) {
    var t, q := Normalized(a, text), Normalized(a, query);
    if t == "" || q == "" then score == 0.0
    else IsBestOf(Fields(t), q, WindowSizes(q, |Fields(t)|), Similarity(q, t), score)
  }

  /** The score has one value, between 0 and 1. */
  lemma FuzzyScoreBounds(a: Alphabet, text: string, query: string, score: real, other: real)
    requires IsFuzzyScore(a, text, query, score) && IsFuzzyScore(a, text, query, other)
    ensures score == other && 0.0 <= score <= 1.0
  {
    var t, q := Normalized(a, text), Normalized(a, query);
    if t != "" && q != "" {
      SimilarityBounds(q, t);
      var tokens := Fields(t);
      forall size, i | 0 <= size && 0 <= i && i + size <= |tokens| ensures Similarity(q, Window(tokens, size, i)) <= 1.0 {
        if Window(tokens, size, i) != "" {
          SimilarityBounds(q, Window(tokens, size, i));
        }
      }
    }
  }

  /** The query's words stand next to each other in the text. */
  predicate ContainsWords(words: seq<string>, query: seq<string>, i: nat) {
    i + |query| <= |words| && words[i..i + |query|] == query
  }

  /** A text that has the words of the query in a row, in whatever case and with whatever punctuation
      between them, scores exactly 1. */
  lemma ContiguousWordsScoreOne(a: Alphabet, text: string, query: string, i: nat, score: real)
    requires Regular(a)
    requires Tokens(a, query) != [] && ContainsWords(Tokens(a, text), Tokens(a, query), i)
    requires IsFuzzyScore(a, text, query, score)
    ensures score == 1.0
  {
    var t, q := Normalized(a, text), Normalized(a, query);
    NormalizeIsIdempotent(a, text);
    NormalizeIsIdempotent(a, query);
    NormalizedNotEmpty(a, text);
    NormalizedNotEmpty(a, query);
    var size := |Tokens(a, query)|;
    assert Window(Fields(t), size, i) == q;
    assert size in WindowSizes(q, |Fields(t)|);
    SimilarityBounds(q, q);
    FuzzyScoreBounds(a, text, query, score, score);
  }

  lemma NormalizedNotEmpty(a: Alphabet, text: string)
    requires Regular(a)
    ensures Normalized(a, text) == "" <==> Tokens(a, text) == []
  {
    TokensAreTokens(a, text);
    TokensAreWords(a, Tokens(a, text));
    if Tokens(a, text) != [] {
      SpacedEnds(Tokens(a, text));
    }
  }
}
