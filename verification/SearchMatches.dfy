/** Search matches and their ranking: by score, the higher pull request number first on a tie, cut off
    at a limit (internal/httpapi/changes_search.go). Scores are sums of whole numbers; a sorted list
    of distinct strings is written as its set. */
module SearchMatches {
  import opened Common

  datatype MatchedPath = MatchedPath(path: string, oldStart: int, oldEnd: int, newStart: int, newEnd: int)

  /** info stands for the columns copied from the snapshot of the pull request. */
  datatype Match = Match(number: int, info: string, score: int, sharedPaths: set<string>, overlappingHunks: int,
                         overlappingPaths: set<string>, matchedRanges: seq<MatchedPath>, reasons: seq<string>)

  type Infos = map<int, string>

  function InfoOf(infos: Infos, number: int): string {
    if number in infos then infos[number] else ""
  }

  /** The comparison of sortSearchMatches. */
  predicate Precedes(a: Match, b: Match) {
    if a.score == b.score then a.number > b.number else a.score > b.score
  }

  predicate Ranked(matches: seq<Match>) {
    forall i, j :: 0 <= i < j < |matches| ==> !Precedes(matches[j], matches[i])
  }

  predicate OnePerNumber(matches: seq<Match>) {
    forall i, j :: 0 <= i < j < |matches| ==> matches[i].number != matches[j].number
  }

  function Insert(m: Match, ranked: seq<Match>): (out: seq<Match>)
    ensures multiset(out) == multiset(ranked) + multiset{m}
  {
    if ranked == [] || !Precedes(m, ranked[|ranked| - 1]) then ranked + [m]
    else
      assert ranked == ranked[..|ranked| - 1] + [ranked[|ranked| - 1]];
      Insert(m, ranked[..|ranked| - 1]) + [ranked[|ranked| - 1]]
  }

  /** sortSearchMatches: stable, by insertion. */
  function SortSearchMatches(matches: seq<Match>): (out: seq<Match>)
    ensures multiset(out) == multiset(matches)
  {
    if matches == [] then []
    else
      assert matches == matches[..|matches| - 1] + [matches[|matches| - 1]];
      Insert(matches[|matches| - 1], SortSearchMatches(matches[..|matches| - 1]))
  }

  lemma {:induction false} InsertMembers(m: Match, ranked: seq<Match>, x: Match)
    ensures x in Insert(m, ranked) <==> x == m || x in ranked
  {
    assert x in Insert(m, ranked) <==> x in multiset(Insert(m, ranked));
    assert x in ranked <==> x in multiset(ranked);
  }

  lemma {:induction false} InsertRanks(m: Match, ranked: seq<Match>)
    requires Ranked(ranked)
    ensures Ranked(Insert(m, ranked))
  {
    if ranked != [] {
      var init, last := ranked[..|ranked| - 1], ranked[|ranked| - 1];
      if Precedes(m, last) {
        InsertRanks(m, init);
        var out := Insert(m, init);
        forall i | 0 <= i < |out| ensures !Precedes(last, out[i]) {
          InsertMembers(m, init, out[i]);
          NotBehindLast(ranked, out[i]);
        }
      }
    }
  }

  lemma NotBehindLast(ranked: seq<Match>, x: Match)
    requires ranked != [] && Ranked(ranked)
    ensures x in ranked[..|ranked| - 1] ==> !Precedes(ranked[|ranked| - 1], x)
  {
    var init := ranked[..|ranked| - 1];
    forall j | 0 <= j < |init| ensures !Precedes(ranked[|ranked| - 1], init[j]) {
      assert init[j] == ranked[j];
    }
  }

  lemma {:induction false} SortRanks(matches: seq<Match>)
    ensures Ranked(SortSearchMatches(matches))
  {
    if matches != [] {
      SortRanks(matches[..|matches| - 1]);
      InsertRanks(matches[|matches| - 1], SortSearchMatches(matches[..|matches| - 1]));
    }
  }

  lemma SameMembers(a: seq<Match>, b: seq<Match>)
    requires multiset(a) == multiset(b)
    ensures |a| == |b| && forall m :: m in a <==> m in b
  {
    assert |multiset(a)| == |a| && |multiset(b)| == |b|;
    forall m ensures m in a <==> m in b {
      assert m in a <==> m in multiset(a);
      assert m in b <==> m in multiset(b);
    }
  }

  lemma OnePerNumberKept(a: seq<Match>, b: seq<Match>)
    requires multiset(a) == multiset(b) && OnePerNumber(a)
    ensures OnePerNumber(b)
  {
    SameMembers(a, b);
    forall i, j | 0 <= i < j < |b| ensures b[i].number != b[j].number {
      if b[i].number == b[j].number {
        assert b[i] in a && b[j] in a;
        TwiceIn(b, i, j);
        OnceIn(a, b[i]);
      }
    }
  }

  lemma TwiceIn(b: seq<Match>, i: nat, j: nat)
    requires i < j < |b|
    ensures b[i] == b[j] ==> multiset(b)[b[i]] >= 2
  {
    assert b == b[..j] + [b[j]] + b[j + 1..];
    assert b[i] in b[..j];
  }

  lemma {:induction false} OnceIn(a: seq<Match>, m: Match)
    requires OnePerNumber(a)
    ensures multiset(a)[m] <= 1
  {
    if a != [] {
      var init, last := a[..|a| - 1], a[|a| - 1];
      OnceIn(init, m);
      assert a == init + [last];
      forall i | 0 <= i < |init| ensures init[i] != last {
        assert a[i].number != a[|a| - 1].number;
      }
    }
  }

  /** With one match per pull request the ranking is a strict total order, so one set of matches has
      only one ranking. */
  lemma {:induction false} RankingIsUnique(a: seq<Match>, b: seq<Match>)
    requires Ranked(a) && Ranked(b) && OnePerNumber(a) && OnePerNumber(b)
    requires forall m :: m in a <==> m in b
    ensures a == b
  {
    if a == [] {
      if b != [] {
        HasMember(b);
      }
    } else {
      HasMember(a);
      var x := a[|a| - 1];
      assert x in b;
      var y := b[|b| - 1];
      assert y in a;
      var i :| 0 <= i < |a| && a[i] == y;
      var j :| 0 <= j < |b| && b[j] == x;
      assert x == y;
      LastDropped(a, b);
      RankingIsUnique(a[..|a| - 1], b[..|b| - 1]);
      assert a == a[..|a| - 1] + [x] && b == b[..|b| - 1] + [y];
    }
  }

  lemma HasMember(b: seq<Match>)
    requires b != []
    ensures b[|b| - 1] in b && exists m :: m in b
  {
  }

  lemma LastDropped(a: seq<Match>, b: seq<Match>)
    requires a != [] && b != [] && a[|a| - 1] == b[|b| - 1] && OnePerNumber(a) && OnePerNumber(b)
    requires forall m :: m in a <==> m in b
    ensures var a', b' := a[..|a| - 1], b[..|b| - 1]; forall m :: m in a' <==> m in b'
  {
    var a', b' := a[..|a| - 1], b[..|b| - 1];
    forall m ensures m in a' <==> m in b' {
      InInit(a, m);
      InInit(b, m);
    }
  }

  lemma InInit(a: seq<Match>, m: Match)
    requires a != [] && OnePerNumber(a)
    ensures m in a[..|a| - 1] <==> m in a && m != a[|a| - 1]
  {
    assert a == a[..|a| - 1] + [a[|a| - 1]];
  }

  /** trimSearchMatches */
  function TrimSearchMatches(matches: seq<Match>, limit: nat): seq<Match> {
    if |matches| <= limit then matches else matches[..limit]
  }

  /** The answer drawn from these matches: their best `limit`, in order. */
  ghost predicate IsTop(out: seq<Match>, matches: seq<Match>, limit: nat) {
    && |out| == Min(limit, |matches|) && Ranked(out) && OnePerNumber(out)
    && (forall m :: m in out ==> m in matches)
    && (forall m, x :: m in out && x in matches && x !in out ==> Precedes(m, x))
  }

  /** Sorting and trimming yields the top of the matches, whatever order they came in; and there is
      only one such answer. */
  lemma SortAndTrimIsTop(matches: seq<Match>, other: seq<Match>, limit: nat)
    requires OnePerNumber(matches) && OnePerNumber(other) && forall m :: m in matches <==> m in other
    ensures IsTop(TrimSearchMatches(SortSearchMatches(matches), limit), matches, limit)
    ensures TrimSearchMatches(SortSearchMatches(matches), limit) == TrimSearchMatches(SortSearchMatches(other), limit)
  {
    var sorted, sortedOther := SortSearchMatches(matches), SortSearchMatches(other);
    SortRanks(matches);
    SortRanks(other);
    SameMembers(sorted, matches);
    SameMembers(sortedOther, other);
    OnePerNumberKept(matches, sorted);
    OnePerNumberKept(other, sortedOther);
    RankingIsUnique(sorted, sortedOther);
    TrimIsTop(sorted, matches, limit);
  }

  lemma TrimIsTop(sorted: seq<Match>, matches: seq<Match>, limit: nat)
    requires Ranked(sorted) && OnePerNumber(sorted) && |sorted| == |matches| && forall m :: m in sorted <==> m in matches
    ensures IsTop(TrimSearchMatches(sorted, limit), matches, limit)
  {
    var out := TrimSearchMatches(sorted, limit);
    forall m, x | m in out && x in matches && x !in out ensures Precedes(m, x) {
      var i :| 0 <= i < |out| && out[i] == m;
      assert x in sorted;
      var j :| 0 <= j < |sorted| && sorted[j] == x;
      assert sorted[i] == m;
      forall k | 0 <= k < |out| ensures sorted[k] != x {
        assert out[k] in out && sorted[k] == out[k];
      }
      assert !Precedes(sorted[j], sorted[i]) && sorted[i].number != sorted[j].number;
    }
  }
}
