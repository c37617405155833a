/** Pull requests related to another one: candidates found by path are scored again by the hunks that
    overlap those of the source (internal/httpapi/changes_search.go). */
module RelatedHunks {
  import opened Common
  import opened SearchMatches
  import opened RangeSearch

  function MinNonZero(a: int, b: int): int {
    if a == 0 then b else if b == 0 then a else Min(a, b)
  }

  function CommonRange(source: HunkRow, candidate: HunkRow): MatchedPath {
    MatchedPath(candidate.path, Max(source.oldStart, candidate.oldStart), MinNonZero(source.oldEnd, candidate.oldEnd),
                Max(source.newStart, candidate.newStart), MinNonZero(source.newEnd, candidate.newEnd))
  }

  /** A side of a stored hunk: 0 to 0 where the file is new or gone, and otherwise lines from 1 on. */
  predicate IsSide(start: int, end: int) {
    (start == 0 && end == 0) || 1 <= start <= end
  }

  /** The lines of both, or those of the one that has any where the other is 0 to 0. */
  predicate SharedLine(line: int, aStart: int, aEnd: int, bStart: int, bEnd: int) {
    if aStart == 0 && aEnd == 0 then HasLine(line, bStart, bEnd)
    else if bStart == 0 && bEnd == 0 then HasLine(line, aStart, aEnd)
    else HasLine(line, aStart, aEnd) && HasLine(line, bStart, bEnd)
  }

  /** On each side the matched range holds exactly the lines that both hunks have there. Where one hunk
      has none at all because the file is new or gone, it is the whole range of the other. */
  lemma CommonRangeIsIntersection(source: HunkRow, candidate: HunkRow, line: int)
    requires IsSide(source.oldStart, source.oldEnd) && IsSide(source.newStart, source.newEnd)
    requires IsSide(candidate.oldStart, candidate.oldEnd) && IsSide(candidate.newStart, candidate.newEnd)
    requires line >= 1
    ensures var r := CommonRange(source, candidate);
            && (r.oldStart <= line <= r.oldEnd
                <==> SharedLine(line, source.oldStart, source.oldEnd, candidate.oldStart, candidate.oldEnd))
            && (r.newStart <= line <= r.newEnd
                <==> SharedLine(line, source.newStart, source.newEnd, candidate.newStart, candidate.newEnd))
  {
  }

  function OnPath(hunks: seq<HunkRow>, path: string): seq<HunkRow> {
    if hunks == [] then []
    else
      var last := hunks[|hunks| - 1];
      OnPath(hunks[..|hunks| - 1], path) + if last.path == path then [last] else []
  }

  function OfNumber(hunks: seq<HunkRow>, number: int): seq<HunkRow> {
    if hunks == [] then []
    else
      var last := hunks[|hunks| - 1];
      OfNumber(hunks[..|hunks| - 1], number) + if last.number == number then [last] else []
  }

  /** The groups hold exactly the hunks of their path or number. */
  lemma {:induction false} GroupsHoldTheirOwn(hunks: seq<HunkRow>, path: string, number: int)
    ensures forall h :: h in OnPath(hunks, path) <==> h in hunks && h.path == path
    ensures forall h :: h in OfNumber(hunks, number) <==> h in hunks && h.number == number
  {
    if hunks != [] {
      var init, last := hunks[..|hunks| - 1], hunks[|hunks| - 1];
      GroupsHoldTheirOwn(init, path, number);
      assert forall h :: h in hunks <==> h in init || h == last;
    }
  }

  ghost predicate GroupedByPath(byPath: map<string, seq<HunkRow>>, hunks: seq<HunkRow>) {
    forall p :: (p in byPath ==> byPath[p] == OnPath(hunks, p)) && (p !in byPath ==> OnPath(hunks, p) == [])
  }

  ghost predicate GroupedByNumber(byPR: map<int, seq<HunkRow>>, hunks: seq<HunkRow>) {
    forall n :: (n in byPR ==> byPR[n] == OfNumber(hunks, n)) && (n !in byPR ==> OfNumber(hunks, n) == [])
  }

  /** What one candidate hunk adds to a match. */
  function WithSources(m: Match, candidate: HunkRow, sources: seq<HunkRow>): Match {
    if sources == [] then m
    else
      var before, source := WithSources(m, candidate, sources[..|sources| - 1]), sources[|sources| - 1];
      if !HunksOverlap(source, candidate) then before
      else
        before.(overlappingHunks := before.overlappingHunks + 1, overlappingPaths := before.overlappingPaths + {candidate.path},
                matchedRanges := before.matchedRanges + [CommonRange(source, candidate)])
  }

  function WithHunks(m: Match, hunks: seq<HunkRow>, sourceHunks: seq<HunkRow>): Match {
    if hunks == [] then m
    else
      var last := hunks[|hunks| - 1];
      WithSources(WithHunks(m, hunks[..|hunks| - 1], sourceHunks), last, OnPath(sourceHunks, last.path))
  }

  /** applyRelatedHunkOverlap */
  function Related(m: Match, hunks: seq<HunkRow>, sourceHunks: seq<HunkRow>): Match {
    var counted := WithHunks(m, hunks, sourceHunks);
    counted.(score := counted.score + 20 * counted.overlappingHunks,
             reasons := counted.reasons + if counted.overlappingHunks > 0 then ["overlapping_hunks"] else [])
  }

  method ApplyRelatedHunkOverlap(m: Match, sourceByPath: map<string, seq<HunkRow>>, hunks: seq<HunkRow>, ghost sourceHunks: seq<HunkRow>)
      returns (matched: Match)
    requires GroupedByPath(sourceByPath, sourceHunks)
    ensures matched == Related(m, hunks, sourceHunks)
  {
    matched := m;
    for k := 0 to |hunks|
      invariant matched == WithHunks(m, hunks[..k], sourceHunks)
    {
      assert hunks[..k + 1][..k] == hunks[..k];
      var sources := if hunks[k].path in sourceByPath then sourceByPath[hunks[k].path] else [];
      matched := AddSources(matched, hunks[k], sources);
    }
    assert hunks[..|hunks|] == hunks;
    matched := matched.(score := matched.score + matched.overlappingHunks * 20);
    if matched.overlappingHunks > 0 {
      matched := matched.(reasons := matched.reasons + ["overlapping_hunks"]);
    } else {
      assert matched.reasons + [] == matched.reasons;
    }
  }

  /** The inner loop of applyRelatedHunkOverlap. */
  method AddSources(m: Match, candidate: HunkRow, sources: seq<HunkRow>) returns (matched: Match)
    ensures matched == WithSources(m, candidate, sources)
  {
    matched := m;
    for j := 0 to |sources|
      invariant matched == WithSources(m, candidate, sources[..j])
    {
      assert sources[..j + 1][..j] == sources[..j];
      if !HunksOverlap(sources[j], candidate) {
        continue;
      }
      matched := matched.(overlappingHunks := matched.overlappingHunks + 1,
                          overlappingPaths := matched.overlappingPaths + {candidate.path},
                          matchedRanges := matched.matchedRanges + [CommonRange(sources[j], candidate)]);
    }
    assert sources[..|sources|] == sources;
  }

  // ------------------------------------------------------------------- the meaning

  /** The pairs of a source hunk and a candidate hunk that overlap on one path. */
  function Overlapping(hunks: seq<HunkRow>, sourceHunks: seq<HunkRow>): nat {
    if hunks == [] then 0
    else Overlapping(hunks[..|hunks| - 1], sourceHunks) + Meeting(hunks[|hunks| - 1], sourceHunks)
  }

  function Meeting(candidate: HunkRow, sourceHunks: seq<HunkRow>): nat {
    if sourceHunks == [] then 0
    else
      var s := sourceHunks[|sourceHunks| - 1];
      Meeting(candidate, sourceHunks[..|sourceHunks| - 1]) + if s.path == candidate.path && HunksOverlap(s, candidate) then 1 else 0
  }

  lemma {:induction false} SourcesMeet(m: Match, candidate: HunkRow, sourceHunks: seq<HunkRow>)
    ensures var w := WithSources(m, candidate, OnPath(sourceHunks, candidate.path));
            && w.overlappingHunks == m.overlappingHunks + Meeting(candidate, sourceHunks)
            && w.number == m.number && w.score == m.score && w.info == m.info && w.sharedPaths == m.sharedPaths
  {
    if sourceHunks != [] {
      var init, last := sourceHunks[..|sourceHunks| - 1], sourceHunks[|sourceHunks| - 1];
      SourcesMeet(m, candidate, init);
      var earlier := OnPath(init, candidate.path);
      if last.path == candidate.path {
        assert (earlier + [last])[..|earlier|] == earlier;
      } else {
        assert earlier + [] == earlier;
      }
    }
  }

  lemma {:induction false} HunksMeet(m: Match, hunks: seq<HunkRow>, sourceHunks: seq<HunkRow>)
    ensures var w := WithHunks(m, hunks, sourceHunks);
            && w.overlappingHunks == m.overlappingHunks + Overlapping(hunks, sourceHunks)
            && w.number == m.number && w.score == m.score && w.info == m.info && w.sharedPaths == m.sharedPaths
  {
    if hunks != [] {
      var init, last := hunks[..|hunks| - 1], hunks[|hunks| - 1];
      HunksMeet(m, init, sourceHunks);
      SourcesMeet(WithHunks(m, init, sourceHunks), last, sourceHunks);
    }
  }

  /** Grouping the source hunks by path first loses no pair: the count is that over all pairs. */
  lemma RelatedCountsPairs(m: Match, hunks: seq<HunkRow>, sourceHunks: seq<HunkRow>)
    requires m.overlappingHunks == 0
    ensures var r := Related(m, hunks, sourceHunks);
            && r.overlappingHunks == Overlapping(hunks, sourceHunks)
            && r.score == m.score + 20 * Overlapping(hunks, sourceHunks)
            && r.number == m.number
  {
    HunksMeet(m, hunks, sourceHunks);
  }

  /** The range is that of an overlapping pair. */
  predicate IsCommonRange(r: MatchedPath, candidate: HunkRow, sources: seq<HunkRow>) {
    exists i :: 0 <= i < |sources| && HunksOverlap(sources[i], candidate) && r == CommonRange(sources[i], candidate)
  }

  lemma CommonRangeOneMore(r: MatchedPath, candidate: HunkRow, sources: seq<HunkRow>)
    requires sources != []
    ensures IsCommonRange(r, candidate, sources[..|sources| - 1]) ==> IsCommonRange(r, candidate, sources)
    ensures HunksOverlap(sources[|sources| - 1], candidate) ==>
              IsCommonRange(CommonRange(sources[|sources| - 1], candidate), candidate, sources)
  {
    var init := sources[..|sources| - 1];
    if IsCommonRange(r, candidate, init) {
      var i :| 0 <= i < |init| && HunksOverlap(init[i], candidate) && r == CommonRange(init[i], candidate);
      assert sources[i] == init[i];
    }
  }

  /** What is reported beside the score: one range for each overlapping pair, the paths they are on, and
      the reason exactly if there is one. */
  lemma {:induction false} SourcesReport(m: Match, candidate: HunkRow, sources: seq<HunkRow>)
    requires |m.matchedRanges| == m.overlappingHunks
    ensures var w := WithSources(m, candidate, sources);
            && |w.matchedRanges| == w.overlappingHunks >= m.overlappingHunks && m.matchedRanges <= w.matchedRanges
            && w.overlappingPaths == m.overlappingPaths + (if w.overlappingHunks > m.overlappingHunks then {candidate.path} else {})
            && w.reasons == m.reasons
            && forall i :: |m.matchedRanges| <= i < |w.matchedRanges| ==> IsCommonRange(w.matchedRanges[i], candidate, sources)
  {
    if sources != [] {
      var before := WithSources(m, candidate, sources[..|sources| - 1]);
      SourcesReport(m, candidate, sources[..|sources| - 1]);
      var w := WithSources(m, candidate, sources);
      forall i | |m.matchedRanges| <= i < |w.matchedRanges| ensures IsCommonRange(w.matchedRanges[i], candidate, sources) {
        CommonRangeOneMore(w.matchedRanges[i], candidate, sources);
        assert i < |before.matchedRanges| ==> w.matchedRanges[i] == before.matchedRanges[i];
      }
    }
  }

  lemma {:induction false} HunksReport(m: Match, hunks: seq<HunkRow>, sourceHunks: seq<HunkRow>)
    requires m.overlappingHunks == 0 && m.matchedRanges == [] && m.overlappingPaths == {}
    ensures var w := WithHunks(m, hunks, sourceHunks);
            && |w.matchedRanges| == w.overlappingHunks && w.reasons == m.reasons
            && (forall p :: p in w.overlappingPaths <==> exists h :: h in hunks && h.path == p && Meeting(h, sourceHunks) > 0)
  {
    if hunks != [] {
      var init, last := hunks[..|hunks| - 1], hunks[|hunks| - 1];
      HunksReport(m, init, sourceHunks);
      SourcesReport(WithHunks(m, init, sourceHunks), last, OnPath(sourceHunks, last.path));
      SourcesMeet(WithHunks(m, init, sourceHunks), last, sourceHunks);
      assert forall h :: h in hunks <==> h in init || h == last;
    }
  }

  lemma RelatedReports(m: Match, hunks: seq<HunkRow>, sourceHunks: seq<HunkRow>)
    requires m.overlappingHunks == 0 && m.matchedRanges == [] && m.overlappingPaths == {}
    ensures var r := Related(m, hunks, sourceHunks);
            && |r.matchedRanges| == r.overlappingHunks
            && (forall p :: p in r.overlappingPaths <==> exists h :: h in hunks && h.path == p && Meeting(h, sourceHunks) > 0)
            && r.reasons == m.reasons + if Overlapping(hunks, sourceHunks) > 0 then ["overlapping_hunks"] else []
  {
    HunksReport(m, hunks, sourceHunks);
    HunksMeet(m, hunks, sourceHunks);
  }

  // -------------------------------------------------------------------- the search

  method GroupByPath(hunks: seq<HunkRow>) returns (byPath: map<string, seq<HunkRow>>)
    ensures GroupedByPath(byPath, hunks)
  {
    byPath := map[];
    for k := 0 to |hunks|
      invariant GroupedByPath(byPath, hunks[..k])
    {
      assert hunks[..k + 1][..k] == hunks[..k];
      var path := hunks[k].path;
      byPath := byPath[path := (if path in byPath then byPath[path] else []) + [hunks[k]]];
    }
    assert hunks[..|hunks|] == hunks;
  }

  method GroupByNumber(hunks: seq<HunkRow>) returns (byPR: map<int, seq<HunkRow>>)
    ensures GroupedByNumber(byPR, hunks)
    ensures forall n :: n in byPR ==> exists i :: 0 <= i < |hunks| && hunks[i].number == n
  {
    byPR := map[];
    for k := 0 to |hunks|
      invariant GroupedByNumber(byPR, hunks[..k])
      invariant forall n :: n in byPR ==> exists i :: 0 <= i < |hunks| && hunks[i].number == n
    {
      assert hunks[..k + 1][..k] == hunks[..k];
      var number := hunks[k].number;
      byPR := byPR[number := (if number in byPR then byPR[number] else []) + [hunks[k]]];
    }
    assert hunks[..|hunks|] == hunks;
  }

  /** A candidate with the hunks that its pull request shares with the source. */
  function Rescored(c: Match, sourceHunks: seq<HunkRow>, candidateHunks: seq<HunkRow>): Match {
    Related(c, OfNumber(candidateHunks, c.number), sourceHunks)
  }

  /** The candidates with an overlapping hunk, rescored, once each. */
  ghost predicate IsRelatedAnswer(final: seq<Match>, candidates: seq<Match>, sourceHunks: seq<HunkRow>, candidateHunks: seq<HunkRow>) {
    && OnePerNumber(final)
    && (forall m :: m in final ==>
          m.overlappingHunks > 0 && exists c :: c in candidates && m == Rescored(c, sourceHunks, candidateHunks))
    && (forall c :: c in candidates && Rescored(c, sourceHunks, candidateHunks).overlappingHunks > 0 ==>
          Rescored(c, sourceHunks, candidateHunks) in final)
  }

  /** The trimmed ranking does not depend on the order in which either map is listed. */
  lemma RelatedIgnoresMapOrder(candidates: seq<Match>, sourceHunks: seq<HunkRow>, candidateHunks: seq<HunkRow>,
                               finalA: seq<Match>, finalB: seq<Match>, limit: nat)
    requires IsRelatedAnswer(finalA, candidates, sourceHunks, candidateHunks)
    requires IsRelatedAnswer(finalB, candidates, sourceHunks, candidateHunks)
    ensures TrimSearchMatches(SortSearchMatches(finalA), limit) == TrimSearchMatches(SortSearchMatches(finalB), limit)
    ensures IsTop(TrimSearchMatches(SortSearchMatches(finalA), limit), finalA, limit)
  {
    assert forall m :: m in finalA <==> m in finalB;
    SortAndTrimIsTop(finalA, finalB, limit);
  }

  lemma WithoutHunksUnchanged(c: Match, sourceHunks: seq<HunkRow>)
    requires c.overlappingHunks == 0
    ensures Related(c, [], sourceHunks) == c
  {
    assert c.reasons + [] == c.reasons;
  }

  lemma RescoredKeepsNumber(c: Match, sourceHunks: seq<HunkRow>, candidateHunks: seq<HunkRow>)
    ensures Rescored(c, sourceHunks, candidateHunks).number == c.number
  {
    HunksMeet(c, OfNumber(candidateHunks, c.number), sourceHunks);
  }

  method IndexCandidates(candidates: seq<Match>) returns (matchByPR: map<int, Match>)
    requires OnePerNumber(candidates)
    ensures forall c :: c in candidates ==> c.number in matchByPR && matchByPR[c.number] == c
    ensures forall n :: n in matchByPR ==> matchByPR[n] in candidates && matchByPR[n].number == n
  {
    matchByPR := map[];
    for k := 0 to |candidates|
      invariant forall i :: 0 <= i < k ==> candidates[i].number in matchByPR && matchByPR[candidates[i].number] == candidates[i]
      invariant forall n :: n in matchByPR ==> matchByPR[n] in candidates && matchByPR[n].number == n
    {
      matchByPR := matchByPR[candidates[k].number := candidates[k]];
    }
  }

  lemma GroupsAreIndexed(candidates: seq<Match>, hunks: seq<HunkRow>, byPR: map<int, seq<HunkRow>>, matchByPR: map<int, Match>)
    requires forall h :: h in hunks ==> exists c :: c in candidates && c.number == h.number
    requires forall n :: n in byPR ==> exists i :: 0 <= i < |hunks| && hunks[i].number == n
    requires forall c :: c in candidates ==> c.number in matchByPR
    ensures byPR.Keys <= matchByPR.Keys
  {
    forall n | n in byPR ensures n in matchByPR {
      var i :| 0 <= i < |hunks| && hunks[i].number == n;
      assert hunks[i] in hunks;
      var c :| c in candidates && c.number == hunks[i].number;
    }
  }

  /** The loop over the candidate hunks of each pull request. */
  method RescoreGroups(indexed: map<int, Match>, sourceByPath: map<string, seq<HunkRow>>, candidateByPR: map<int, seq<HunkRow>>,
                       ghost sourceHunks: seq<HunkRow>)
      returns (matchByPR: map<int, Match>)
    requires GroupedByPath(sourceByPath, sourceHunks) && candidateByPR.Keys <= indexed.Keys
    ensures matchByPR.Keys == indexed.Keys
    ensures forall n :: n in indexed ==>
              matchByPR[n] == if n in candidateByPR then Related(indexed[n], candidateByPR[n], sourceHunks) else indexed[n]
  {
    matchByPR := indexed;
    var numbers := candidateByPR.Keys;
    while numbers != {}
      invariant numbers <= candidateByPR.Keys && matchByPR.Keys == indexed.Keys
      invariant forall n :: n in indexed && n in numbers ==> matchByPR[n] == indexed[n]
      invariant forall n :: n in indexed && n !in numbers ==>
                  matchByPR[n] == if n in candidateByPR then Related(indexed[n], candidateByPR[n], sourceHunks) else indexed[n]
    {
      HasNumber(numbers);
      var n :| n in numbers;
      var matched := ApplyRelatedHunkOverlap(matchByPR[n], sourceByPath, candidateByPR[n], sourceHunks);
      matchByPR := matchByPR[n := matched];
      numbers := numbers - {n};
    }
  }

  method RescoreCandidates(candidates: seq<Match>, sourceHunks: seq<HunkRow>, candidateHunks: seq<HunkRow>)
      returns (matchByPR: map<int, Match>)
    requires OnePerNumber(candidates) && forall c :: c in candidates ==> c.overlappingHunks == 0
    requires forall h :: h in candidateHunks ==> exists c :: c in candidates && c.number == h.number
    ensures forall c :: c in candidates ==> c.number in matchByPR && matchByPR[c.number] == Rescored(c, sourceHunks, candidateHunks)
    ensures forall n :: n in matchByPR ==> exists c :: c in candidates && c.number == n
  {
    var sourceByPath := GroupByPath(sourceHunks);
    var candidateByPR := GroupByNumber(candidateHunks);
    var indexed := IndexCandidates(candidates);
    GroupsAreIndexed(candidates, candidateHunks, candidateByPR, indexed);
    matchByPR := RescoreGroups(indexed, sourceByPath, candidateByPR, sourceHunks);
    forall c | c in candidates ensures matchByPR[c.number] == Rescored(c, sourceHunks, candidateHunks) {
      WithoutHunksUnchanged(c, sourceHunks);
    }
  }

  method KeepOverlapping(matchByPR: map<int, Match>) returns (final: seq<Match>)
    requires forall n :: n in matchByPR ==> matchByPR[n].number == n
    ensures OnePerNumber(final)
    ensures forall m :: m in final <==> m.number in matchByPR && matchByPR[m.number] == m && m.overlappingHunks > 0
  {
    final := [];
    var numbers := matchByPR.Keys;
    while numbers != {}
      invariant numbers <= matchByPR.Keys && OnePerNumber(final)
      invariant forall m :: m in final <==>
                  m.number in matchByPR && m.number !in numbers && matchByPR[m.number] == m && m.overlappingHunks > 0
    {
      HasNumber(numbers);
      var n :| n in numbers;
      if matchByPR[n].overlappingHunks > 0 {
        final := final + [matchByPR[n]];
      }
      numbers := numbers - {n};
    }
  }

  /** scoreRelatedHunkCandidates, for candidates as the path search lists them and hunks of theirs. */
  method ScoreRelatedHunkCandidates(candidates: seq<Match>, sourceHunks: seq<HunkRow>, candidateHunks: seq<HunkRow>, limit: nat)
      returns (top: seq<Match>)
    requires OnePerNumber(candidates) && forall c :: c in candidates ==> c.overlappingHunks == 0
    requires forall h :: h in candidateHunks ==> exists c :: c in candidates && c.number == h.number
    ensures exists final :: IsRelatedAnswer(final, candidates, sourceHunks, candidateHunks) && IsTop(top, final, limit)
                            && top == TrimSearchMatches(SortSearchMatches(final), limit)
  {
    var matchByPR := RescoreCandidates(candidates, sourceHunks, candidateHunks);
    forall c | c in candidates ensures Rescored(c, sourceHunks, candidateHunks).number == c.number {
      RescoredKeepsNumber(c, sourceHunks, candidateHunks);
    }
    forall n | n in matchByPR ensures matchByPR[n].number == n {
      var c :| c in candidates && c.number == n;
    }
    var final := KeepOverlapping(matchByPR);
    forall m | m in final ensures exists c :: c in candidates && m == Rescored(c, sourceHunks, candidateHunks) {
      var c :| c in candidates && c.number == m.number;
    }
    top := TrimSearchMatches(SortSearchMatches(final), limit);
    SortAndTrimIsTop(final, final, limit);
    assert IsRelatedAnswer(final, candidates, sourceHunks, candidateHunks);
  }
}
