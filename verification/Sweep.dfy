/** The keyset cursor of the backfill lane: which rows a pass attempts, in which order, and what a
    whole sweep of passes covers and costs (internal/githubsync/change_sync.go). */
module Sweep {
  import opened Common
  import opened Inventory

  /** (github_updated_at < ?) OR (github_updated_at = ? AND pull_request_number < ?) */
  predicate Below(a: Cursor, b: Cursor) {
    a.updatedAt < b.updatedAt || (a.updatedAt == b.updatedAt && a.number < b.number)
  }

  function KeyOf(m: map<int, Row>, n: int): Cursor
    requires n in m
  {
    Cursor(m[n].updatedAt, n)
  }

  predicate NonCurrent(m: map<int, Row>, n: int) {
    n in m && m[n].freshness != FRESH_CURRENT
  }

  /** The rows backfillInventoryQuery selects. */
  function Candidates(m: map<int, Row>, cursor: Option<Cursor>): set<int> {
    set n | n in m && NonCurrent(m, n) && (cursor.Some? ==> Below(KeyOf(m, n), cursor.value))
  }

  // ---------------------------------------------------- the order of a listing

  lemma TopExists(m: map<int, Row>, s: set<int>)
    requires s != {} && s <= m.Keys
    ensures exists t :: t in s && forall n :: n in s && n != t ==> Below(KeyOf(m, n), KeyOf(m, t))
    decreases |s|
  {
    HasNumber(s);
    var x :| x in s;
    var rest := s - {x};
    if rest == {} {
      assert s == {x};
      assert forall n :: n in s && n != x ==> Below(KeyOf(m, n), KeyOf(m, x));
    } else {
      TopExists(m, rest);
      var t :| t in rest && forall n :: n in rest && n != t ==> Below(KeyOf(m, n), KeyOf(m, t));
      var top := if Below(KeyOf(m, t), KeyOf(m, x)) then x else t;
      assert forall n :: n in s && n != top ==> Below(KeyOf(m, n), KeyOf(m, top));
    }
  }

  function Top(m: map<int, Row>, s: set<int>): (t: int)
    requires s != {} && s <= m.Keys
    ensures t in s && forall n :: n in s && n != t ==> Below(KeyOf(m, n), KeyOf(m, t))
  {
    TopExists(m, s);
    var t :| t in s && forall n :: n in s && n != t ==> Below(KeyOf(m, n), KeyOf(m, t));
    t
  }

  /** ORDER BY github_updated_at DESC, pull_request_number DESC */
  function Ordered(m: map<int, Row>, s: set<int>): (list: seq<int>)
    requires s <= m.Keys
    ensures forall i :: 0 <= i < |list| ==> list[i] in s
    ensures forall n :: n in s ==> n in list
    ensures forall i, j :: 0 <= i < j < |list| ==> Below(KeyOf(m, list[j]), KeyOf(m, list[i]))
    ensures |list| == |s|
    decreases |s|
  {
    if s == {} then []
    else
      var t := Top(m, s);
      var rest := Ordered(m, s - {t});
      [t] + rest
  }

  /** listBackfillCandidatesFromInventory */
  function Listing(m: map<int, Row>, cursor: Option<Cursor>, limit: int): seq<int> {
    var all := Ordered(m, Candidates(m, cursor));
    var most := if limit <= 0 then 10 else limit;
    if |all| <= most then all else all[..most]
  }

  /** A listing is a strictly descending head of the candidates. */
  lemma ListingIsHead(m: map<int, Row>, cursor: Option<Cursor>, limit: int)
    ensures var list := Listing(m, cursor, limit);
            && (forall i :: 0 <= i < |list| ==> list[i] in Candidates(m, cursor))
            && (forall i, j :: 0 <= i < j < |list| ==> Below(KeyOf(m, list[j]), KeyOf(m, list[i])))
            && (forall n, i :: n in Candidates(m, cursor) && n !in list && 0 <= i < |list| ==> Below(KeyOf(m, n), KeyOf(m, list[i])))
            && (list == [] <==> Candidates(m, cursor) == {})
            && |list| == Min(|Candidates(m, cursor)|, if limit <= 0 then 10 else limit)
  {
    var all := Ordered(m, Candidates(m, cursor));
    var list := Listing(m, cursor, limit);
    assert list <= all;
    forall n, i | n in Candidates(m, cursor) && n !in list && 0 <= i < |list|
      ensures Below(KeyOf(m, n), KeyOf(m, list[i]))
    {
      var k :| 0 <= k < |all| && all[k] == n;
      assert k >= |list|;
    }
    if Candidates(m, cursor) != {} {
      HasNumber(Candidates(m, cursor));
      var n :| n in Candidates(m, cursor);
      assert n in all;
    }
  }

  // ------------------------------------------------------------------- a pass

  /** The first k numbers of a listing. */
  function Heads(list: seq<int>, k: nat): set<int>
    requires k <= |list|
  {
    set i | 0 <= i < k :: list[i]
  }

  /** What one pass over some rows did: the candidates it attempted are the head of its listing as
      long as this sequence, and these are the rows it stored for them. */
  type Written = seq<Row>

  function RowsAfter(m: map<int, Row>, list: seq<int>, written: Written): map<int, Row>
    requires |written| <= |list|
  {
    if written == [] then m
    else
      var k := |written| - 1;
      RowsAfter(m, list, written[..k])[list[k] := written[k]]
  }

  /** finalizeBackfillCursor and refreshBackfillResultCounts: where the next pass resumes, None when
      the sweep is over, and also when the pass attempted nothing. */
  function CursorAfter(m: map<int, Row>, list: seq<int>, written: Written): Option<Cursor>
    requires |written| <= |list|
  {
    if written == [] then None
    else
      var k := |written| - 1;
      var last := Cursor(written[k].updatedAt, list[k]);
      if Candidates(RowsAfter(m, list, written), Some(last)) != {} then Some(last) else None
  }

  /** A pass rewrites the rows it attempted and no other. */
  lemma {:induction false} RowsAfterElsewhere(m: map<int, Row>, list: seq<int>, written: Written)
    requires |written| <= |list| && forall i :: 0 <= i < |list| ==> list[i] in m
    ensures RowsAfter(m, list, written).Keys == m.Keys
    ensures forall n :: n in m && n !in Heads(list, |written|) ==> RowsAfter(m, list, written)[n] == m[n]
  {
    if written != [] {
      var k := |written| - 1;
      RowsAfterElsewhere(m, list, written[..k]);
      assert list[k] in Heads(list, k + 1) && Heads(list, k) <= Heads(list, k + 1);
    }
  }

  // ------------------------------------------------------------ whole sweeps

  /** One pass as its limit and what it wrote; a sweep as its passes. */
  datatype Pass = Pass(limit: int, written: Written)

  /** The rows and the cursor a sweep has come to, and the pull requests it has attempted. */
  datatype SweepState = SweepState(rows: map<int, Row>, cursor: Option<Cursor>, attempted: set<int>)

  function ListingOf(s: SweepState, p: Pass): seq<int> {
    Listing(s.rows, s.cursor, p.limit)
  }

  /** A pass attempts a head of its listing, and something unless nothing is listed. */
  predicate Fits(s: SweepState, p: Pass) {
    |p.written| <= |ListingOf(s, p)| && (p.written == [] ==> ListingOf(s, p) == [])
  }

  function Done(s: SweepState, p: Pass): set<int>
    requires Fits(s, p)
  {
    s.attempted + Heads(ListingOf(s, p), |p.written|)
  }

  /** The key the pass stopped at, as its last attempt wrote it. */
  function StoppedAt(s: SweepState, p: Pass): Cursor
    requires Fits(s, p) && p.written != []
  {
    Cursor(p.written[|p.written| - 1].updatedAt, ListingOf(s, p)[|p.written| - 1])
  }

  function Next(s: SweepState, p: Pass): SweepState
    requires Fits(s, p)
  {
    SweepState(RowsAfter(s.rows, ListingOf(s, p), p.written), CursorAfter(s.rows, ListingOf(s, p), p.written), Done(s, p))
  }

  /** Rows not current when the sweep began and not attempted since are untouched and still ahead
      of the cursor. */
  ghost predicate SweepInv(start: map<int, Row>, s: SweepState) {
    forall n | NonCurrent(start, n) && n !in s.attempted ::
      n in s.rows && s.rows[n] == start[n] && (s.cursor.Some? ==> Below(KeyOf(start, n), s.cursor.value))
  }

  /** Every row not current at the start and not in this set lies below the cursor. */
  ghost predicate RestBelow(start: map<int, Row>, attempted: set<int>, cursor: Cursor) {
    forall n | NonCurrent(start, n) && n !in attempted :: Below(KeyOf(start, n), cursor)
  }

  /** What a pass has to do for the sweep to miss nothing: stop at a key above all that is left. */
  ghost predicate GoodPass(start: map<int, Row>, s: SweepState, p: Pass) {
    Fits(s, p) && (p.written != [] ==> RestBelow(start, Done(s, p), StoppedAt(s, p)))
  }

  /** The last attempt of the pass did not lower the key of its row; earlier ones may have. */
  predicate Monotone(s: SweepState, p: Pass) {
    && Fits(s, p)
    && (p.written != [] ==>
          var n := ListingOf(s, p)[|p.written| - 1];
          n in s.rows && s.rows[n].updatedAt <= p.written[|p.written| - 1].updatedAt)
  }

  /** A row neither attempted before a pass nor in it is untouched, and was listed behind the last
      row attempted or not at all. */
  lemma UnattemptedStaysAhead(start: map<int, Row>, s: SweepState, p: Pass, n: int)
    requires SweepInv(start, s) && Fits(s, p) && NonCurrent(start, n) && n !in Done(s, p)
    ensures n in Next(s, p).rows && Next(s, p).rows[n] == start[n] && p.written != []
    ensures Below(KeyOf(start, n), KeyOf(s.rows, ListingOf(s, p)[|p.written| - 1]))
  {
    var list, k := ListingOf(s, p), |p.written| - 1;
    ListingIsHead(s.rows, s.cursor, p.limit);
    RowsAfterElsewhere(s.rows, list, p.written);
    assert n in Candidates(s.rows, s.cursor);
    if n in list {
      var j :| 0 <= j < |list| && list[j] == n;
      assert j > k;
    }
  }

  lemma MonotoneIsGood(start: map<int, Row>, s: SweepState, p: Pass)
    requires SweepInv(start, s) && Monotone(s, p)
    ensures GoodPass(start, s, p)
  {
    if p.written != [] {
      forall n | NonCurrent(start, n) && n !in Done(s, p) ensures Below(KeyOf(start, n), StoppedAt(s, p)) {
        UnattemptedStaysAhead(start, s, p, n);
      }
    }
  }

  /** The sweep invariant survives to the key a pass stops at exactly if the rows still to be
      attempted lie below it; and a pass that ends the sweep leaves nothing out exactly then. */
  lemma PassIsGoodIff(start: map<int, Row>, s: SweepState, p: Pass)
    requires SweepInv(start, s) && Fits(s, p) && p.written != []
    ensures SweepInv(start, Next(s, p).(cursor := Some(StoppedAt(s, p)))) <==> GoodPass(start, s, p)
    ensures Next(s, p).cursor == None ==>
              ((forall n :: NonCurrent(start, n) ==> n in Done(s, p)) <==> GoodPass(start, s, p))
  {
    forall n | NonCurrent(start, n) && n !in Done(s, p)
      ensures n in Next(s, p).rows && Next(s, p).rows[n] == start[n]
      ensures Next(s, p).cursor == None ==> !Below(KeyOf(start, n), StoppedAt(s, p))
    {
      UnattemptedStaysAhead(start, s, p, n);
      assert Below(KeyOf(start, n), StoppedAt(s, p)) ==> n in Candidates(Next(s, p).rows, Some(StoppedAt(s, p)));
    }
  }

  /** A good pass keeps the sweep invariant, and ends the sweep only when nothing is left. */
  lemma PassKeepsSweep(start: map<int, Row>, s: SweepState, p: Pass)
    requires SweepInv(start, s) && GoodPass(start, s, p)
    ensures SweepInv(start, Next(s, p))
    ensures Next(s, p).cursor == None ==> forall n :: NonCurrent(start, n) ==> n in Next(s, p).attempted
  {
    if p.written == [] {
      forall n | NonCurrent(start, n) ensures n in Done(s, p) {
        if n !in Done(s, p) {
          UnattemptedStaysAhead(start, s, p, n);
        }
      }
    } else {
      PassIsGoodIff(start, s, p);
    }
  }

  /** Passes one after the other, each but the first with a cursor to resume from. */
  ghost predicate ValidSweep(start: map<int, Row>, passes: seq<Pass>)
    decreases |passes|, 0
  {
    passes != [] ==>
      var init := passes[..|passes| - 1];
      && ValidSweep(start, init)
      && (init != [] ==> SweepAt(start, init).cursor.Some?)
      && Fits(SweepAt(start, init), passes[|passes| - 1])
  }

  /** Where passes that begin without a cursor have come to. */
  ghost function SweepAt(start: map<int, Row>, passes: seq<Pass>): SweepState
    requires ValidSweep(start, passes)
    decreases |passes|, 1
  {
    if passes == [] then SweepState(start, None, {})
    else Next(SweepAt(start, passes[..|passes| - 1]), passes[|passes| - 1])
  }

  ghost predicate GoodSweep(start: map<int, Row>, passes: seq<Pass>)
    requires ValidSweep(start, passes)
    decreases |passes|
  {
    passes != [] ==>
      var init := passes[..|passes| - 1];
      GoodSweep(start, init) && GoodPass(start, SweepAt(start, init), passes[|passes| - 1])
  }

  ghost predicate MonotoneSweep(start: map<int, Row>, passes: seq<Pass>)
    requires ValidSweep(start, passes)
    decreases |passes|
  {
    passes != [] ==>
      var init := passes[..|passes| - 1];
      MonotoneSweep(start, init) && Monotone(SweepAt(start, init), passes[|passes| - 1])
  }

  /** No row is skipped: a sweep of good passes that starts without a cursor and ends without one has
      attempted every row that was not current when it began, even though attempts move keys. */
  lemma {:induction false} SweepSkipsNothing(start: map<int, Row>, passes: seq<Pass>)
    requires ValidSweep(start, passes) && GoodSweep(start, passes)
    ensures SweepInv(start, SweepAt(start, passes))
    ensures passes != [] && SweepAt(start, passes).cursor == None ==>
              forall n :: NonCurrent(start, n) ==> n in SweepAt(start, passes).attempted
    decreases |passes|
  {
    if passes != [] {
      var init := passes[..|passes| - 1];
      SweepSkipsNothing(start, init);
      PassKeepsSweep(start, SweepAt(start, init), passes[|passes| - 1]);
    }
  }

  /** Passes whose last attempt fetched a time no older than the stored one are good. */
  lemma {:induction false} MonotoneSweepIsGood(start: map<int, Row>, passes: seq<Pass>)
    requires ValidSweep(start, passes) && MonotoneSweep(start, passes)
    ensures GoodSweep(start, passes)
    decreases |passes|
  {
    if passes != [] {
      var init := passes[..|passes| - 1];
      MonotoneSweepIsGood(start, init);
      SweepSkipsNothing(start, init);
      MonotoneIsGood(start, SweepAt(start, init), passes[|passes| - 1]);
    }
  }

  // ------------------------------------------------- sweeps against a frozen upstream

  function Behind(m: map<int, Row>, upstream: map<int, int>): set<int> {
    set n | n in m && n in upstream && m[n].updatedAt != upstream[n]
  }

  /** Rows whose stored key differs from upstream weigh more than every row still ahead of the cursor. */
  function Rank(m: map<int, Row>, cursor: Option<Cursor>, upstream: map<int, int>): nat {
    |Behind(m, upstream)| * (|m| + 1) + |Candidates(m, cursor)|
  }

  lemma CandidatesFit(m: map<int, Row>, cursor: Option<Cursor>)
    ensures |Candidates(m, cursor)| <= |m|
  {
    SubsetSize(Candidates(m, cursor), m.Keys);
    assert |m| == |m.Keys|;
  }

  lemma SubsetSize(a: set<int>, b: set<int>)
    requires a <= b
    ensures |a| <= |b|
    ensures a != b ==> |a| < |b|
  {
    assert b == a + (b - a);
  }

  lemma RankDrops(behind: nat, behind': nat, size: nat, ahead: nat, ahead': nat)
    requires ahead' <= size
    requires behind' < behind || (behind' == behind && ahead' < ahead)
    ensures behind' * (size + 1) + ahead' < behind * (size + 1) + ahead
  {
    if behind' < behind {
      assert (behind' + 1) * (size + 1) <= behind * (size + 1);
    }
  }

  /** Every attempt lowers the rank, whether it fails, leaves the key alone or moves it, and even
      when the cursor goes up and earlier rows fall ahead of it again. */
  lemma AttemptLowersRank(m: map<int, Row>, cursor: Option<Cursor>, upstream: map<int, int>, n: int, row: Row)
    requires n in Candidates(m, cursor) && n in upstream
    requires row.updatedAt == m[n].updatedAt || row.updatedAt == upstream[n]
    ensures Rank(m[n := row], Some(Cursor(row.updatedAt, n)), upstream) < Rank(m, cursor, upstream)
  {
    var after, next := m[n := row], Some(Cursor(row.updatedAt, n));
    SizeWritten(m, n, row);
    CandidatesFit(after, next);
    if row.updatedAt == m[n].updatedAt {
      assert Behind(after, upstream) == Behind(m, upstream);
      assert Candidates(after, next) <= Candidates(m, cursor) - {n};
      SubsetSize(Candidates(after, next), Candidates(m, cursor) - {n});
    } else {
      assert Behind(after, upstream) == Behind(m, upstream) - {n};
    }
    RankDrops(|Behind(m, upstream)|, |Behind(after, upstream)|, |m|, |Candidates(m, cursor)|, |Candidates(after, next)|);
  }

  /** Upstream times are known for every row and no stored one is ahead of them. */
  predicate NotAhead(m: map<int, Row>, upstream: map<int, int>) {
    forall n :: n in m ==> n in upstream && m[n].updatedAt <= upstream[n]
  }

  /** Each attempt stored either the key it found or the upstream one. */
  predicate FromUpstream(m: map<int, Row>, list: seq<int>, written: Written, upstream: map<int, int>) {
    |written| <= |list| && forall i :: 0 <= i < |written| ==>
      list[i] in m && list[i] in upstream
      && (written[i].updatedAt == m[list[i]].updatedAt || written[i].updatedAt == upstream[list[i]])
  }

  function LastCursor(cursor: Option<Cursor>, list: seq<int>, written: Written): Option<Cursor>
    requires |written| <= |list|
  {
    if written == [] then cursor else Some(Cursor(written[|written| - 1].updatedAt, list[|written| - 1]))
  }

  lemma ListedInOrder(m: map<int, Row>, cursor: Option<Cursor>, limit: int, k: nat)
    requires k < |Listing(m, cursor, limit)|
    ensures var list := Listing(m, cursor, limit);
            && list[k] in Candidates(m, cursor) && list[k] !in Heads(list, k)
            && (k > 0 ==> list[k - 1] in m && Below(KeyOf(m, list[k]), KeyOf(m, list[k - 1])))
  {
    ListingIsHead(m, cursor, limit);
  }

  lemma ListedAreRows(m: map<int, Row>, cursor: Option<Cursor>, limit: int)
    ensures forall i :: 0 <= i < |Listing(m, cursor, limit)| ==> Listing(m, cursor, limit)[i] in m
  {
    ListingIsHead(m, cursor, limit);
  }

  /** When its turn comes, the next row of a listing is as listed and still ahead of the cursor. */
  lemma NextIsCandidate(m: map<int, Row>, cursor: Option<Cursor>, limit: int, written: Written)
    requires NoneLowered(m, Listing(m, cursor, limit), written)
    ensures var list, k := Listing(m, cursor, limit), |written|;
            var before := RowsAfter(m, list, written);
            && list[k] in m && list[k] in before && before[list[k]] == m[list[k]]
            && list[k] in Candidates(before, LastCursor(cursor, list, written))
  {
    ListedInOrder(m, cursor, limit, |written|);
    ListedAreRows(m, cursor, limit);
    RowsAfterElsewhere(m, Listing(m, cursor, limit), written);
  }

  /** A next row is left, and no attempt so far lowered a key. */
  predicate NoneLowered(m: map<int, Row>, list: seq<int>, written: Written) {
    |written| < |list| && forall i :: 0 <= i < |written| ==> list[i] in m && m[list[i]].updatedAt <= written[i].updatedAt
  }

  lemma {:induction false} PassLowersRank(m: map<int, Row>, cursor: Option<Cursor>, limit: int, written: Written, upstream: map<int, int>)
    requires NotAhead(m, upstream) && FromUpstream(m, Listing(m, cursor, limit), written, upstream)
    ensures var list := Listing(m, cursor, limit);
            var after := RowsAfter(m, list, written);
            && |written| + Rank(after, LastCursor(cursor, list, written), upstream) <= Rank(m, cursor, upstream)
            && NotAhead(after, upstream)
  {
    if written != [] {
      var list, k := Listing(m, cursor, limit), |written| - 1;
      var init := written[..k];
      PassLowersRank(m, cursor, limit, init, upstream);
      NextIsCandidate(m, cursor, limit, init);
      AttemptLowersRank(RowsAfter(m, list, init), LastCursor(cursor, list, init), upstream, list[k], written[k]);
    }
  }

  ghost predicate FrozenSweep(start: map<int, Row>, passes: seq<Pass>, upstream: map<int, int>)
    requires ValidSweep(start, passes)
    decreases |passes|
  {
    passes != [] ==>
      var init, p := passes[..|passes| - 1], passes[|passes| - 1];
      FrozenSweep(start, init, upstream)
      && FromUpstream(SweepAt(start, init).rows, ListingOf(SweepAt(start, init), p), p.written, upstream)
  }

  function Attempts(passes: seq<Pass>): nat {
    if passes == [] then 0 else Attempts(passes[..|passes| - 1]) + |passes[|passes| - 1].written|
  }

  /** With upstream frozen a sweep is finite: its attempts, re-attempts included, are bounded by
      the rank it starts from, and so are its passes. */
  lemma {:induction false} SweepTerminates(start: map<int, Row>, passes: seq<Pass>, upstream: map<int, int>)
    requires ValidSweep(start, passes) && NotAhead(start, upstream) && FrozenSweep(start, passes, upstream)
    ensures NotAhead(SweepAt(start, passes).rows, upstream)
    ensures Attempts(passes) <= Rank(start, None, upstream) && |passes| <= Attempts(passes) + 1
    ensures var s := SweepAt(start, passes);
            s.cursor.Some? || passes == [] ==>
              Attempts(passes) + Rank(s.rows, s.cursor, upstream) <= Rank(start, None, upstream) && |passes| <= Attempts(passes)
    decreases |passes|
  {
    if passes != [] {
      var init, p := passes[..|passes| - 1], passes[|passes| - 1];
      SweepTerminates(start, init, upstream);
      PassLowersRank(SweepAt(start, init).rows, SweepAt(start, init).cursor, p.limit, p.written, upstream);
    }
  }

  // ------------------------------------------- why the conditions on passes are needed

  /** A pass whose deadline expires before its first candidate returns the cursor to None although
      rows are left, as if the sweep were over. */
  lemma DeadlineBeforeFirstCandidate(s: SweepState, limit: int)
    ensures CursorAfter(s.rows, Listing(s.rows, s.cursor, limit), []) == None
    ensures Fits(s, Pass(limit, [])) <==> Candidates(s.rows, s.cursor) == {}
  {
    ListingIsHead(s.rows, s.cursor, limit);
  }

  function SweepRow(updatedAt: int): Row {
    Row(updatedAt, "h", "b", "main", "open", false, "")
  }

  /** A fetch that returns an older time than the stored one can make a sweep skip rows: of two rows
      with keys 10 and 5 the first is attempted and comes back with 3; nothing is below that, so the
      sweep is over and the second row was never attempted. */
  lemma OlderFetchSkips()
    ensures var start := map[1 := SweepRow(10), 2 := SweepRow(5)];
            var passes := [Pass(1, [SweepRow(3)])];
            && ValidSweep(start, passes) && !GoodSweep(start, passes)
            && SweepAt(start, passes).cursor == None && SweepAt(start, passes).attempted == {1} && NonCurrent(start, 2)
  {
    var start := map[1 := SweepRow(10), 2 := SweepRow(5)];
    SkippingPass(start);
    SingleSweep(start, Pass(1, [SweepRow(3)]));
  }

  lemma SingleSweep(start: map<int, Row>, p: Pass)
    requires Fits(SweepState(start, None, {}), p)
    ensures var s := SweepState(start, None, {});
            ValidSweep(start, [p]) && SweepAt(start, [p]) == Next(s, p) && (GoodSweep(start, [p]) <==> GoodPass(start, s, p))
  {
    assert [p][..0] == [] && SweepAt(start, []) == SweepState(start, None, {});
  }

  lemma SkippingPass(start: map<int, Row>)
    requires start == map[1 := SweepRow(10), 2 := SweepRow(5)]
    ensures var s, p := SweepState(start, None, {}), Pass(1, [SweepRow(3)]);
            && Fits(s, p) && !GoodPass(start, s, p)
            && Next(s, p).cursor == None && Next(s, p).attempted == {1} && NonCurrent(start, 2)
  {
    var p := Pass(1, [SweepRow(3)]);
    HigherKeyListed(start);
    assert RowsAfter(start, [1], p.written) == start[1 := SweepRow(3)] by {
      assert p.written[..0] == [];
    }
    assert Candidates(start[1 := SweepRow(3)], Some(Cursor(3, 1))) == {};
    assert Heads([1], 1) == {1};
    assert NonCurrent(start, 2) && !Below(KeyOf(start, 2), Cursor(3, 1));
  }

  lemma HigherKeyListed(start: map<int, Row>)
    requires start == map[1 := SweepRow(10), 2 := SweepRow(5)]
    ensures Listing(start, None, 1) == [1]
  {
    var list := Listing(start, None, 1);
    ListingIsHead(start, None, 1);
    assert 1 in Candidates(start, None) && 2 in Candidates(start, None);
    assert |list| == 1 && list[0] in {1, 2};
    assert !Below(KeyOf(start, 1), KeyOf(start, 2));
    assert 1 in list;
  }
}
