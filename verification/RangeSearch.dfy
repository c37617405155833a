/** Pull requests whose hunks touch given line ranges, and pull requests related to another by
    overlapping hunks (internal/httpapi/changes_search.go). */
module RangeSearch {
  import opened Common
  import opened SearchMatches

  datatype HunkRow = HunkRow(number: int, path: string, oldStart: int, oldEnd: int, newStart: int, newEnd: int)

  datatype SearchRange = SearchRange(path: string, start: int, end: int)

  // ------------------------------------------------------------------ overlapping

  function RangeOverlap(aStart: int, aEnd: int, bStart: int, bEnd: int): bool {
    if aStart == 0 && aEnd == 0 then false
    else if bStart == 0 && bEnd == 0 then false
    else aStart <= Max(bStart, bEnd) && bStart <= Max(aStart, aEnd)
  }

  /** The lines of a range: none for 0 to 0, only the first if the end comes before it. */
  predicate HasLine(line: int, start: int, end: int) {
    !(start == 0 && end == 0) && start <= line && (line <= end || line == start)
  }

  /** Two ranges overlap exactly if they have a line in common. */
  lemma OverlapIsCommonLine(aStart: int, aEnd: int, bStart: int, bEnd: int)
    ensures RangeOverlap(aStart, aEnd, bStart, bEnd) <==> exists line :: HasLine(line, aStart, aEnd) && HasLine(line, bStart, bEnd)
    ensures RangeOverlap(aStart, aEnd, bStart, bEnd) == RangeOverlap(bStart, bEnd, aStart, aEnd)
  {
    if RangeOverlap(aStart, aEnd, bStart, bEnd) {
      assert HasLine(Max(aStart, bStart), aStart, aEnd) && HasLine(Max(aStart, bStart), bStart, bEnd);
    }
  }

  /** rangeSearchMatch: on either side of the diff. */
  predicate RangeSearchMatch(hunk: HunkRow, r: SearchRange) {
    && hunk.path == r.path
    && (RangeOverlap(hunk.newStart, hunk.newEnd, r.start, r.end) || RangeOverlap(hunk.oldStart, hunk.oldEnd, r.start, r.end))
  }

  predicate HunksOverlap(a: HunkRow, b: HunkRow) {
    RangeOverlap(a.newStart, a.newEnd, b.newStart, b.newEnd) || RangeOverlap(a.oldStart, a.oldEnd, b.oldStart, b.oldEnd)
  }

  /** A hunk meets a range of its path exactly if that has a line in common with its new or its old
      side; two hunks overlap exactly if they have one in common on the same side. */
  lemma SidesAreComparedApart(a: HunkRow, b: HunkRow, r: SearchRange)
    ensures RangeSearchMatch(a, r) <==>
              a.path == r.path
              && exists line :: HasLine(line, r.start, r.end) && (HasLine(line, a.newStart, a.newEnd) || HasLine(line, a.oldStart, a.oldEnd))
    ensures HunksOverlap(a, b) <==>
              exists line :: (HasLine(line, a.newStart, a.newEnd) && HasLine(line, b.newStart, b.newEnd))
                             || (HasLine(line, a.oldStart, a.oldEnd) && HasLine(line, b.oldStart, b.oldEnd))
  {
    OverlapIsCommonLine(a.newStart, a.newEnd, r.start, r.end);
    OverlapIsCommonLine(a.oldStart, a.oldEnd, r.start, r.end);
    OverlapIsCommonLine(a.newStart, a.newEnd, b.newStart, b.newEnd);
    OverlapIsCommonLine(a.oldStart, a.oldEnd, b.oldStart, b.oldEnd);
  }

  // ------------------------------------------------- what a range search answers

  function HitCount(hunk: HunkRow, ranges: seq<SearchRange>): nat {
    if ranges == [] then 0
    else HitCount(hunk, ranges[..|ranges| - 1]) + if RangeSearchMatch(hunk, ranges[|ranges| - 1]) then 1 else 0
  }

  function Repeated(hunk: HunkRow, count: nat): seq<HunkRow> {
    if count == 0 then [] else Repeated(hunk, count - 1) + [hunk]
  }

  /** The hunks of one pull request, each as often as it meets a range. */
  function OwnHits(hunks: seq<HunkRow>, ranges: seq<SearchRange>, number: int): seq<HunkRow> {
    if hunks == [] then []
    else
      var last := hunks[|hunks| - 1];
      OwnHits(hunks[..|hunks| - 1], ranges, number) + if last.number == number then Repeated(last, HitCount(last, ranges)) else []
  }

  function Listed(hits: seq<HunkRow>): seq<MatchedPath> {
    if hits == [] then []
    else
      var h := hits[|hits| - 1];
      Listed(hits[..|hits| - 1]) + [MatchedPath(h.path, h.oldStart, h.oldEnd, h.newStart, h.newEnd)]
  }

  function PathsOf(hits: seq<HunkRow>): set<string> {
    set h | h in hits :: h.path
  }

  function NormalizePaths(paths: set<string>): set<string> {
    set p | p in paths && TrimSpace(p) != "" :: TrimSpace(p)
  }

  function Collected(number: int, info: string, hits: seq<HunkRow>): Match {
    Match(number, info, 20 * |hits|, {}, |hits|, PathsOf(hits), Listed(hits), [])
  }

  function Closed(m: Match): Match {
    m.(overlappingPaths := NormalizePaths(m.overlappingPaths), reasons := m.reasons + ["overlapping_ranges"])
  }

  function RangeMatch(hunks: seq<HunkRow>, ranges: seq<SearchRange>, infos: Infos, number: int): Match {
    Closed(Collected(number, InfoOf(infos, number), OwnHits(hunks, ranges, number)))
  }

  /** One match for each pull request with a hit. */
  ghost predicate IsRangeAnswer(results: seq<Match>, hunks: seq<HunkRow>, ranges: seq<SearchRange>, infos: Infos) {
    && OnePerNumber(results)
    && (forall m :: m in results ==> OwnHits(hunks, ranges, m.number) != [] && m == RangeMatch(hunks, ranges, infos, m.number))
    && (forall n :: OwnHits(hunks, ranges, n) != [] ==> RangeMatch(hunks, ranges, infos, n) in results)
  }

  /** The trimmed ranking does not depend on the order in which the map of matches is listed. */
  lemma RangeSearchIgnoresMapOrder(hunks: seq<HunkRow>, ranges: seq<SearchRange>, infos: Infos,
                                   resultsA: seq<Match>, resultsB: seq<Match>, limit: nat)
    requires IsRangeAnswer(resultsA, hunks, ranges, infos) && IsRangeAnswer(resultsB, hunks, ranges, infos)
    ensures TrimSearchMatches(SortSearchMatches(resultsA), limit) == TrimSearchMatches(SortSearchMatches(resultsB), limit)
    ensures IsTop(TrimSearchMatches(SortSearchMatches(resultsA), limit), resultsA, limit)
  {
    assert forall m :: m in resultsA <==> m in resultsB;
    SortAndTrimIsTop(resultsA, resultsB, limit);
  }

  // --------------------------------------------------------------- counting pairs

  /** The pairs of a hunk of this pull request and a range that have a line in common on one path. */
  function Pairs(hunks: seq<HunkRow>, ranges: seq<SearchRange>, number: int): set<(int, int)> {
    set i, j | 0 <= i < |hunks| && 0 <= j < |ranges| && hunks[i].number == number && RangeSearchMatch(hunks[i], ranges[j]) :: (i, j)
  }

  function RowPairs(i: int, hunk: HunkRow, ranges: seq<SearchRange>): set<(int, int)> {
    set j | 0 <= j < |ranges| && RangeSearchMatch(hunk, ranges[j]) :: (i, j)
  }

  lemma RowPairsOneMore(i: int, hunk: HunkRow, ranges: seq<SearchRange>)
    requires ranges != []
    ensures var init, n := ranges[..|ranges| - 1], |ranges| - 1;
            && RowPairs(i, hunk, ranges) == RowPairs(i, hunk, init) + (if RangeSearchMatch(hunk, ranges[n]) then {(i, n)} else {})
            && (i, n) !in RowPairs(i, hunk, init)
  {
    var init, n := ranges[..|ranges| - 1], |ranges| - 1;
    forall p | p in RowPairs(i, hunk, ranges) && p.1 != n ensures p in RowPairs(i, hunk, init) {
      assert init[p.1] == ranges[p.1];
    }
    forall p | p in RowPairs(i, hunk, init) ensures p in RowPairs(i, hunk, ranges) {
      assert init[p.1] == ranges[p.1];
    }
  }

  lemma {:induction false} RowPairsCount(i: int, hunk: HunkRow, ranges: seq<SearchRange>)
    ensures |RowPairs(i, hunk, ranges)| == HitCount(hunk, ranges)
  {
    if ranges != [] {
      RowPairsCount(i, hunk, ranges[..|ranges| - 1]);
      RowPairsOneMore(i, hunk, ranges);
    }
  }

  lemma {:induction false} RepeatedLength(hunk: HunkRow, count: nat)
    ensures |Repeated(hunk, count)| == count
  {
    if count > 0 {
      RepeatedLength(hunk, count - 1);
    }
  }

  lemma PairsOneMore(hunks: seq<HunkRow>, ranges: seq<SearchRange>, number: int)
    requires hunks != []
    ensures var init, last := hunks[..|hunks| - 1], hunks[|hunks| - 1];
            && Pairs(hunks, ranges, number)
               == Pairs(init, ranges, number) + (if last.number == number then RowPairs(|init|, last, ranges) else {})
            && Pairs(init, ranges, number) !! RowPairs(|init|, last, ranges)
  {
    var init, last := hunks[..|hunks| - 1], hunks[|hunks| - 1];
    forall p | p in Pairs(hunks, ranges, number)
      ensures p in Pairs(init, ranges, number) || (last.number == number && p in RowPairs(|init|, last, ranges))
    {
      if p.0 < |init| {
        assert init[p.0] == hunks[p.0];
      }
    }
  }

  /** The overlap count of a match is the number of pairs of a hunk and a range that overlap. */
  lemma {:induction false} HitsAreOverlappingPairs(hunks: seq<HunkRow>, ranges: seq<SearchRange>, number: int)
    ensures |OwnHits(hunks, ranges, number)| == |Pairs(hunks, ranges, number)|
  {
    if hunks == [] {
      assert Pairs(hunks, ranges, number) == {};
    } else {
      var init, last := hunks[..|hunks| - 1], hunks[|hunks| - 1];
      HitsAreOverlappingPairs(init, ranges, number);
      PairsOneMore(hunks, ranges, number);
      RowPairsCount(|init|, last, ranges);
      RepeatedLength(last, HitCount(last, ranges));
    }
  }

  lemma {:induction false} ListedHits(hits: seq<HunkRow>)
    ensures |Listed(hits)| == |hits|
    ensures forall i :: 0 <= i < |hits| ==>
              Listed(hits)[i] == MatchedPath(hits[i].path, hits[i].oldStart, hits[i].oldEnd, hits[i].newStart, hits[i].newEnd)
  {
    if hits != [] {
      ListedHits(hits[..|hits| - 1]);
    }
  }

  /** What a match tells: twenty points for each overlapping pair, the paths it found them on, trimmed
      and without blanks, and the hunks in order as often as they met a range. */
  lemma RangeMatchTells(hunks: seq<HunkRow>, ranges: seq<SearchRange>, infos: Infos, number: int)
    ensures var m, hits := RangeMatch(hunks, ranges, infos, number), OwnHits(hunks, ranges, number);
            && m.number == number && m.score == 20 * |Pairs(hunks, ranges, number)| && m.overlappingHunks == |Pairs(hunks, ranges, number)|
            && (forall p :: p in m.overlappingPaths <==> p != "" && exists h :: h in hits && TrimSpace(h.path) == p)
            && |m.matchedRanges| == |hits| && m.reasons == ["overlapping_ranges"] && m.sharedPaths == {}
            && forall i :: 0 <= i < |hits| ==>
                 m.matchedRanges[i] == MatchedPath(hits[i].path, hits[i].oldStart, hits[i].oldEnd, hits[i].newStart, hits[i].newEnd)
  {
    var hits := OwnHits(hunks, ranges, number);
    HitsAreOverlappingPairs(hunks, ranges, number);
    ListedHits(hits);
    forall p ensures p in NormalizePaths(PathsOf(hits)) <==> p != "" && exists h :: h in hits && TrimSpace(h.path) == p {
      if h :| h in hits && TrimSpace(h.path) == p && p != "" {
        assert h.path in PathsOf(hits);
      }
    }
  }

  // -------------------------------------------------------------------- the search

  function AddHit(byPR: map<int, Match>, hunk: HunkRow, infos: Infos): map<int, Match> {
    var n := hunk.number;
    var m := if n in byPR then byPR[n] else Match(n, InfoOf(infos, n), 0, {}, 0, {}, [], []);
    byPR[n := m.(overlappingHunks := m.overlappingHunks + 1, score := m.score + 20,
                 overlappingPaths := m.overlappingPaths + {hunk.path},
                 matchedRanges := m.matchedRanges + [MatchedPath(hunk.path, hunk.oldStart, hunk.oldEnd, hunk.newStart, hunk.newEnd)])]
  }

  function AddHits(byPR: map<int, Match>, hunk: HunkRow, count: nat, infos: Infos): map<int, Match> {
    if count == 0 then byPR else AddHit(AddHits(byPR, hunk, count - 1, infos), hunk, infos)
  }

  function AllHits(hunks: seq<HunkRow>, ranges: seq<SearchRange>, infos: Infos): map<int, Match> {
    if hunks == [] then map[]
    else
      var last := hunks[|hunks| - 1];
      AddHits(AllHits(hunks[..|hunks| - 1], ranges, infos), last, HitCount(last, ranges), infos)
  }

  ghost predicate Holds(byPR: map<int, Match>, infos: Infos, number: int, hits: seq<HunkRow>) {
    && (number in byPR <==> hits != [])
    && (number in byPR ==> byPR[number] == Collected(number, InfoOf(infos, number), hits))
  }

  lemma PathsOneMore(hits: seq<HunkRow>, hunk: HunkRow)
    ensures PathsOf(hits + [hunk]) == PathsOf(hits) + {hunk.path}
  {
    forall p | p in PathsOf(hits) ensures p in PathsOf(hits + [hunk]) {
      var h :| h in hits && h.path == p;
      assert h in hits + [hunk];
    }
    assert hunk in hits + [hunk];
  }

  lemma ListedOneMore(hits: seq<HunkRow>, hunk: HunkRow)
    ensures Listed(hits + [hunk])
            == Listed(hits) + [MatchedPath(hunk.path, hunk.oldStart, hunk.oldEnd, hunk.newStart, hunk.newEnd)]
  {
    assert (hits + [hunk])[..|hits|] == hits;
  }

  lemma CollectOneMore(number: int, info: string, hits: seq<HunkRow>, hunk: HunkRow)
    ensures Collected(number, info, hits + [hunk])
            == Match(number, info, 20 * |hits| + 20, {}, |hits| + 1, PathsOf(hits) + {hunk.path},
                     Listed(hits) + [MatchedPath(hunk.path, hunk.oldStart, hunk.oldEnd, hunk.newStart, hunk.newEnd)], [])
  {
    PathsOneMore(hits, hunk);
    ListedOneMore(hits, hunk);
  }

  lemma AddHitHolds(byPR: map<int, Match>, hunk: HunkRow, infos: Infos, number: int, hits: seq<HunkRow>)
    requires Holds(byPR, infos, number, hits)
    ensures Holds(AddHit(byPR, hunk, infos), infos, number, if hunk.number == number then hits + [hunk] else hits)
  {
    if hunk.number == number {
      CollectOneMore(number, InfoOf(infos, number), hits, hunk);
      assert PathsOf([]) == {};
    }
  }

  lemma {:induction false} AddHitsHold(byPR: map<int, Match>, hunk: HunkRow, count: nat, infos: Infos, number: int, hits: seq<HunkRow>)
    requires Holds(byPR, infos, number, hits)
    ensures Holds(AddHits(byPR, hunk, count, infos), infos, number, if hunk.number == number then hits + Repeated(hunk, count) else hits)
  {
    if count == 0 {
      assert hits + [] == hits;
    } else {
      AddHitsHold(byPR, hunk, count - 1, infos, number, hits);
      AddHitHolds(AddHits(byPR, hunk, count - 1, infos), hunk, infos, number,
                  if hunk.number == number then hits + Repeated(hunk, count - 1) else hits);
      assert hits + Repeated(hunk, count) == hits + Repeated(hunk, count - 1) + [hunk];
    }
  }

  lemma {:induction false} AllHitsHold(hunks: seq<HunkRow>, ranges: seq<SearchRange>, infos: Infos, number: int)
    ensures Holds(AllHits(hunks, ranges, infos), infos, number, OwnHits(hunks, ranges, number))
  {
    if hunks != [] {
      var init, last := hunks[..|hunks| - 1], hunks[|hunks| - 1];
      AllHitsHold(init, ranges, infos, number);
      AddHitsHold(AllHits(init, ranges, infos), last, HitCount(last, ranges), infos, number, OwnHits(init, ranges, number));
      assert OwnHits(init, ranges, number) + [] == OwnHits(init, ranges, number);
    }
  }

  /** The inner loop of buildRangeSearchMatches. */
  method AddHunk(byPR: map<int, Match>, hunk: HunkRow, ranges: seq<SearchRange>, infos: Infos) returns (updated: map<int, Match>)
    ensures updated == AddHits(byPR, hunk, HitCount(hunk, ranges), infos)
  {
    updated := byPR;
    for j := 0 to |ranges|
      invariant updated == AddHits(byPR, hunk, HitCount(hunk, ranges[..j]), infos)
    {
      assert ranges[..j + 1][..j] == ranges[..j];
      if !RangeSearchMatch(hunk, ranges[j]) {
        continue;
      }
      var n := hunk.number;
      var m := if n in updated then updated[n] else Match(n, InfoOf(infos, n), 0, {}, 0, {}, [], []);
      m := m.(overlappingHunks := m.overlappingHunks + 1, score := m.score + 20);
      m := m.(overlappingPaths := m.overlappingPaths + {hunk.path});
      m := m.(matchedRanges := m.matchedRanges + [MatchedPath(hunk.path, hunk.oldStart, hunk.oldEnd, hunk.newStart, hunk.newEnd)]);
      assert updated[n := m] == AddHit(updated, hunk, infos);
      updated := updated[n := m];
    }
    assert ranges[..|ranges|] == ranges;
  }

  method CollectHits(hunks: seq<HunkRow>, ranges: seq<SearchRange>, infos: Infos) returns (byPR: map<int, Match>)
    ensures byPR == AllHits(hunks, ranges, infos)
  {
    byPR := map[];
    for k := 0 to |hunks|
      invariant byPR == AllHits(hunks[..k], ranges, infos)
    {
      assert hunks[..k + 1][..k] == hunks[..k];
      byPR := AddHunk(byPR, hunks[k], ranges, infos);
    }
    assert hunks[..|hunks|] == hunks;
  }

  /** buildRangeSearchMatches: the matches are listed in the map's own order. */
  method BuildRangeSearchMatches(hunks: seq<HunkRow>, ranges: seq<SearchRange>, infos: Infos) returns (results: seq<Match>)
    ensures IsRangeAnswer(results, hunks, ranges, infos)
  {
    var byPR := CollectHits(hunks, ranges, infos);
    forall n ensures Holds(byPR, infos, n, OwnHits(hunks, ranges, n)) {
      AllHitsHold(hunks, ranges, infos, n);
    }
    results := [];
    var numbers := byPR.Keys;
    while numbers != {}
      invariant numbers <= byPR.Keys && OnePerNumber(results)
      invariant forall m :: m in results ==> m.number in byPR && m.number !in numbers && m == RangeMatch(hunks, ranges, infos, m.number)
      invariant forall n :: n in byPR && n !in numbers ==> RangeMatch(hunks, ranges, infos, n) in results
    {
      HasNumber(numbers);
      var n :| n in numbers;
      var m := byPR[n].(overlappingPaths := NormalizePaths(byPR[n].overlappingPaths));
      m := m.(reasons := m.reasons + ["overlapping_ranges"]);
      assert Holds(byPR, infos, n, OwnHits(hunks, ranges, n));
      results := results + [m];
      numbers := numbers - {n};
    }
  }

  /** searchByRanges, from the rows the database returned. Every match counts the overlapping pairs
      and scores twenty for each. */
  method SearchByRanges(hunks: seq<HunkRow>, ranges: seq<SearchRange>, infos: Infos, limit: nat) returns (top: seq<Match>)
    ensures exists results :: IsRangeAnswer(results, hunks, ranges, infos) && IsTop(top, results, limit)
                              && top == TrimSearchMatches(SortSearchMatches(results), limit)
    ensures forall m :: m in top ==>
              m.overlappingHunks == |Pairs(hunks, ranges, m.number)| && m.score == 20 * |Pairs(hunks, ranges, m.number)| > 0
  {
    var results := BuildRangeSearchMatches(hunks, ranges, infos);
    top := TrimSearchMatches(SortSearchMatches(results), limit);
    SortAndTrimIsTop(results, results, limit);
    forall m | m in top
      ensures m.overlappingHunks == |Pairs(hunks, ranges, m.number)| && m.score == 20 * |Pairs(hunks, ranges, m.number)| > 0
    {
      HitsAreOverlappingPairs(hunks, ranges, m.number);
    }
  }
}
